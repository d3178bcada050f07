/**
 * The output panel of a snippet: every displayed entry becomes a tab whose
 * label is derived from the entry's path (`<root>/<namespace>/<kind>/<name…>`),
 * and the first tab is selected by default. An empty list renders nothing.
 */
module CodeOutput {
  import opened Wrappers
  import opened Strings
  import opened SnippetOutput
  import opened Tabs

  /** `folders[i]`, which is `undefined` past the end. */
  function Segment(folders: seq<string>, i: nat): (r: Option<string>)
    ensures r.Some? <==> i < |folders|
    ensures r.Some? ==> r.value == folders[i]
  {
    if i < |folders| then Some(folders[i]) else None
  }

  /** A value inside a template literal: `undefined` prints as "undefined". */
  function Interpolate(x: Option<string>): string {
    match x
    case Some(v) => v
    case None => "undefined"
  }

  /**
   * The tab label of a path: the name is every segment from index 3 on,
   * joined with `/`; it is prefixed by the namespace (segment 1) and a
   * colon unless the namespace is `default`. Segment 2 is discarded.
   */
  function TabLabel(relativePath: string): string {
    var folders := Split(relativePath, '/');
    var namespace := Segment(folders, 1);
    var name := Join(Drop(folders, 3), "/");
    if namespace == Some("default") then name else Interpolate(namespace) + ":" + name
  }

  /**
   * For a path built from a root folder, a namespace, a resource kind and
   * the name's segments, the label is the name, prefixed by the namespace
   * unless it is `default`.
   */
  lemma LabelOfSegments(root: string, namespace: string, kind: string, name: seq<string>)
    requires forall p :: p in [root, namespace, kind] + name ==> '/' !in p
    ensures var path := Join([root, namespace, kind] + name, "/");
            TabLabel(path) == if namespace == "default" then Join(name, "/") else namespace + ":" + Join(name, "/")
  {
    var parts := [root, namespace, kind] + name;
    var path := Join(parts, "/");
    SplitJoin(parts, '/');
    assert Split(path, '/') == parts;
    assert Drop(parts, 3) == name;
  }

  /**
   * A path without `/` (the synthetic diagnostics entry among them) has no
   * segment 1, so its label is "undefined:".
   */
  lemma SingleSegmentLabel(relativePath: string)
    requires '/' !in relativePath
    ensures TabLabel(relativePath) == "undefined:"
  {
    SplitSingle(relativePath, '/');
    assert Drop(Split(relativePath, '/'), 3) == [];
  }

  /** The diagnostics report shows up as a tab labelled "undefined:". */
  lemma ErrorReportLabel(markers: seq<Marker>)
    ensures TabLabel(ErrorReport(markers).relativePath) == "undefined:"
  {
    assert '/' !in ErrorReportPath by {
      assert forall i :: 0 <= i < |ErrorReportPath| ==> ErrorReportPath[i] != '/';
    }
    SingleSegmentLabel(ErrorReportPath);
  }

  /** `{...f, name}`: the entry with its label. */
  datatype LabelledFile = LabelledFile(file: OutputFile, name: string)

  /** The `filesExtended` map: one labelled entry per entry, in order. */
  function ExtendFiles(files: seq<OutputFile>): (r: seq<LabelledFile>)
    ensures |r| == |files|
    ensures forall i :: 0 <= i < |r| ==> r[i].file == files[i] && r[i].name == TabLabel(files[i].relativePath)
  {
    seq(|files|, i requires 0 <= i < |files| => LabelledFile(files[i], TabLabel(files[i].relativePath)))
  }

  /** What the panel hands to the tab list: the default value and the tabs. */
  datatype TabsProps = TabsProps(defaultValue: string, values: seq<TabValue>, children: seq<string>)

  /**
   * The panel: nothing for an empty list; otherwise one tab per entry, in
   * order, whose value and label are both the entry's label, one child per
   * entry under the same value, and the first label as the default.
   */
  function CodeOutputTabs(files: seq<OutputFile>): (r: Option<TabsProps>)
    ensures r.None? <==> |files| == 0
    ensures r.Some? ==>
              |r.value.values| == |r.value.children| == |files|
              && r.value.defaultValue == r.value.values[0].value
              && forall i :: 0 <= i < |files| ==>
                   var name := TabLabel(files[i].relativePath);
                   r.value.values[i] == TabValue(name, name) && r.value.children[i] == name
  {
    if |files| == 0 then None
    else
      var extended := ExtendFiles(files);
      Some(TabsProps(
        extended[0].name,
        seq(|extended|, i requires 0 <= i < |extended| => TabValue(extended[i].name, extended[i].name)),
        seq(|extended|, i requires 0 <= i < |extended| => extended[i].name)))
  }
}
