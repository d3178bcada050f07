/** The file name tab: the extension that picks the icon, and the tab's width. */
module FileTab {
  import opened Wrappers
  import opened Strings

  /**
   * `getExtension`: the last `.`-separated piece, or "" when the name has
   * no `.` at all.
   */
  function GetExtension(name: string): (ext: string)
    ensures '.' !in ext
    ensures '.' !in name ==> ext == ""
    ensures '.' in name ==> ext == name[LastIndexOf(name, '.') + 1..]
  {
    SplitSingle(name, '.');
    SplitLast(name, '.');
    var bits := Split(name, '.');
    if |bits| == 1 then "" else bits[|bits| - 1]
  }

  /** The extension is empty exactly when the name has no `.` or ends with one. */
  lemma ExtensionPresent(name: string)
    ensures GetExtension(name) != "" <==> '.' in name && name[|name| - 1] != '.'
  {
    if '.' in name {
      var i := LastIndexOf(name, '.');
      assert GetExtension(name) == name[i + 1..];
    }
  }

  /** The rendered tab: its width in pixels and the icon it shows, if any. */
  datatype FileTabView = FileTabView(width: int, icon: Option<string>)

  /**
   * The tab of a file name: 10 pixels per character plus 15, and the icon
   * of the extension when the extension is not empty.
   */
  function RenderFileTab(name: string): (v: FileTabView)
    ensures v.width == 10 * |name| + 15
    ensures v.icon.Some? <==> '.' in name && name[|name| - 1] != '.'
    ensures v.icon.Some? ==> v.icon.value == "/img/icons/file_type_" + GetExtension(name) + ".svg"
  {
    var ext := GetExtension(name);
    ExtensionPresent(name);
    FileTabView(|name| * 10 + 15, if ext != "" then Some("/img/icons/file_type_" + ext + ".svg") else None)
  }
}
