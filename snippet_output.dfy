/**
 * The pure rules of the live snippet's output pipeline: which generated
 * resources are build scaffolding, how editor diagnostics become the single
 * "Failed to Compile:" report, how a compile result is filtered, re-keyed
 * and formatted, and the implicit import line put in front of the code.
 */
module SnippetOutput {
  import opened Wrappers
  import opened Strings

  // ---------------------------------------------------------------- data

  /** One editor marker as the language service reports it. */
  datatype Marker = Marker(owner: string, severity: int, startLineNumber: nat, startColumn: nat, message: string)

  /** One file handed to the custom file handler when the data pack is saved. */
  datatype FileInfo = FileInfo(relativePath: string, content: string)

  datatype FileKind = File | Errors

  /** One displayed output entry: a generated file or the error report. */
  datatype OutputFile = OutputFile(kind: FileKind, relativePath: string, key: nat, content: string)

  // ---------------------------------------------------------- boilerplate

  const BoilerplateNamespaces: set<string> := {"load", "__sandstone__"}
  const BoilerplateFunctions: set<string> := {"__init__"}
  const BoilerplateTagNamespace: string := "minecraft"
  const BoilerplateTagName: string := "load"

  /**
   * `name.replace(/\.[^.]+$/, '')`: removes the last `.` and what follows it,
   * provided at least one character follows it.
   */
  function StripExtension(name: string): (stem: string)
    ensures '.' !in name ==> stem == name
    ensures '.' in name && name[|name| - 1] == '.' ==> stem == name
    ensures '.' in name && name[|name| - 1] != '.' ==>
              stem + "." + name[LastIndexOf(name, '.') + 1..] == name
  {
    var i := LastIndexOf(name, '.');
    if 0 <= i < |name| - 1 then
      assert name == name[..i] + "." + name[i + 1..];
      name[..i]
    else name
  }

  /**
   * Whether a generated path is scaffolding the listing hides: a path of at
   * least four `/`-separated segments whose segment 2 is a reserved
   * namespace, whose leaf stem is `__init__`, or which is the
   * `minecraft` `load` function tag.
   */
  predicate IsBoilerplateFile(relativePath: string) {
    IsBoilerplateSplit(Split(relativePath, '/'), relativePath)
  }

  /** The rule applied to the `/`-separated segments of `relativePath`. */
  predicate IsBoilerplateSplit(parts: seq<string>, relativePath: string) {
    if |parts| < 4 then false
    else
      var namespace := parts[2];
      var fileName := StripExtension(parts[|parts| - 1]);
      if namespace in BoilerplateNamespaces then true
      else if fileName in BoilerplateFunctions then true
      else if namespace == BoilerplateTagNamespace && Contains(relativePath, "/tags/")
              && fileName == BoilerplateTagName then true
      else false
  }

  /** A path with fewer than three `/` is never boilerplate. */
  lemma ShortPathNotBoilerplate(relativePath: string)
    requires Count(relativePath, '/') < 3
    ensures !IsBoilerplateFile(relativePath)
  {
    SplitCount(relativePath, '/');
  }

  /** Separator-free path segments. */
  predicate Segments(parts: seq<string>) {
    forall p :: p in parts ==> '/' !in p
  }

  /** Deciding on a joined path is deciding on the segments it was joined from. */
  lemma JoinedPathRule(parts: seq<string>)
    requires |parts| >= 1 && Segments(parts)
    ensures IsBoilerplateFile(Join(parts, "/")) == IsBoilerplateSplit(parts, Join(parts, "/"))
  {
    SplitJoin(parts, '/');
  }

  /** Any path under a reserved namespace is hidden, whatever its leaf. */
  lemma ReservedNamespaceHidden(parts: seq<string>)
    requires |parts| >= 4 && Segments(parts)
    requires parts[2] in BoilerplateNamespaces
    ensures IsBoilerplateFile(Join(parts, "/"))
  {
    JoinedPathRule(parts);
  }

  /** `__init__` leaves are hidden in every namespace. */
  lemma InitFunctionHidden(parts: seq<string>)
    requires |parts| >= 4 && Segments(parts)
    requires StripExtension(parts[|parts| - 1]) in BoilerplateFunctions
    ensures IsBoilerplateFile(Join(parts, "/"))
  {
    JoinedPathRule(parts);
    assert IsBoilerplateSplit(parts, Join(parts, "/"));
  }

  /** The `load` stem is hidden in `minecraft` exactly when the path runs through `/tags/`. */
  lemma LoadTagRule(parts: seq<string>)
    requires |parts| >= 4 && Segments(parts)
    requires parts[2] == "minecraft" && StripExtension(parts[|parts| - 1]) == "load"
    ensures IsBoilerplateFile(Join(parts, "/")) <==> Contains(Join(parts, "/"), "/tags/")
  {
    assert parts[2] !in BoilerplateNamespaces && "load" !in BoilerplateFunctions;
    JoinedPathRule(parts);
  }

  /** A path outside the reserved and `minecraft` namespaces, not `__init__`, is shown. */
  lemma OrdinaryPathShown(parts: seq<string>)
    requires |parts| >= 4 && Segments(parts)
    requires parts[2] !in BoilerplateNamespaces && parts[2] != BoilerplateTagNamespace
    requires StripExtension(parts[|parts| - 1]) !in BoilerplateFunctions
    ensures !IsBoilerplateFile(Join(parts, "/"))
  {
    JoinedPathRule(parts);
  }

  // --------------------------------------------------------- diagnostics

  const ErrorReportPath: string := "Failed to Compile:"
  const TypeScriptOwner: string := "typescript"

  /** A marker that stops the compile: owned by TypeScript, severity above 1. */
  predicate Blocks(m: Marker) {
    m.owner == TypeScriptOwner && m.severity > 1
  }

  predicate HasBlockingMarker(markers: seq<Marker>) {
    exists i :: 0 <= i < |markers| && Blocks(markers[i])
  }

  /**
   * The loop over the markers that both compile paths run before
   * compiling: whether one of them is a TypeScript marker of severity
   * above 1.
   */
  method FindBlockingMarker(markers: seq<Marker>) returns (found: bool)
    ensures found == HasBlockingMarker(markers)
  {
    var i := 0;
    while i < |markers|
      invariant 0 <= i <= |markers|
      invariant forall k :: 0 <= k < i ==> !Blocks(markers[k])
    {
      if Blocks(markers[i]) {
        return true;
      }
      i := i + 1;
    }
    return false;
  }

  /** `[line:col] message` and a newline. */
  function MarkerLine(m: Marker): string {
    "[" + NatToString(m.startLineNumber) + ":" + NatToString(m.startColumn) + "] " + m.message + "\n"
  }

  /** What one marker adds to the report: its line if TypeScript owns it. */
  function Contribution(m: Marker): string {
    if m.owner == TypeScriptOwner then MarkerLine(m) else ""
  }

  /** The report's content: the left fold of the markers, as `reduce` does it. */
  function ErrorContent(markers: seq<Marker>): string {
    if |markers| == 0 then ""
    else ErrorContent(markers[..|markers| - 1]) + Contribution(markers[|markers| - 1])
  }

  /** The single entry shown when a blocking marker is present. */
  function ErrorReport(markers: seq<Marker>): (r: OutputFile)
    ensures r.kind == Errors && r.relativePath == ErrorReportPath && r.key == 0
    ensures r.content == Concat(TypeScriptLines(markers))
  {
    ErrorContentIsLines(markers);
    OutputFile(Errors, ErrorReportPath, 0, ErrorContent(markers))
  }

  /** Reference definition: the lines of the TypeScript markers, in order. */
  function TypeScriptLines(markers: seq<Marker>): seq<string> {
    if |markers| == 0 then []
    else if markers[0].owner == TypeScriptOwner then [MarkerLine(markers[0])] + TypeScriptLines(markers[1..])
    else TypeScriptLines(markers[1..])
  }

  function Concat(lines: seq<string>): string {
    if |lines| == 0 then "" else lines[0] + Concat(lines[1..])
  }

  lemma {:induction false} ConcatAppend(a: seq<string>, b: seq<string>)
    ensures Concat(a + b) == Concat(a) + Concat(b)
    decreases |a|
  {
    if |a| > 0 {
      assert (a + b)[1..] == a[1..] + b;
      ConcatAppend(a[1..], b);
    } else {
      assert a + b == b;
    }
  }

  lemma {:induction false} TypeScriptLinesAppend(a: seq<Marker>, b: seq<Marker>)
    ensures TypeScriptLines(a + b) == TypeScriptLines(a) + TypeScriptLines(b)
    decreases |a|
  {
    if |a| > 0 {
      assert (a + b)[1..] == a[1..] + b;
      TypeScriptLinesAppend(a[1..], b);
    } else {
      assert a + b == b;
    }
  }

  /**
   * The fold produces exactly the TypeScript markers' lines in order;
   * markers of other owners, of any severity, add nothing.
   */
  lemma {:induction false} ErrorContentIsLines(markers: seq<Marker>)
    ensures ErrorContent(markers) == Concat(TypeScriptLines(markers))
    decreases |markers|
  {
    if |markers| > 0 {
      var init := markers[..|markers| - 1];
      var last := markers[|markers| - 1];
      ErrorContentIsLines(init);
      assert markers == init + [last];
      TypeScriptLinesAppend(init, [last]);
      ConcatAppend(TypeScriptLines(init), TypeScriptLines([last]));
      assert [last][1..] == [];
    }
  }

  // ------------------------------------------------------ result display

  /** The compile result without its scaffolding, in the original order. */
  function Retained(files: seq<FileInfo>): (kept: seq<FileInfo>)
    ensures |kept| <= |files|
    ensures forall f :: f in kept <==> f in files && !IsBoilerplateFile(f.relativePath)
  {
    if |files| == 0 then []
    else
      var rest := Retained(files[1..]);
      assert files == [files[0]] + files[1..];
      if IsBoilerplateFile(files[0].relativePath) then rest else [files[0]] + rest
  }

  /** Filtering distributes over concatenation, so relative order is kept. */
  lemma {:induction false} RetainedAppend(a: seq<FileInfo>, b: seq<FileInfo>)
    ensures Retained(a + b) == Retained(a) + Retained(b)
    decreases |a|
  {
    if |a| > 0 {
      var ab := a + b;
      assert ab[0] == a[0];
      assert ab[1..] == a[1..] + b;
      RetainedAppend(a[1..], b);
      if IsBoilerplateFile(a[0].relativePath) {
        assert Retained(ab) == Retained(ab[1..]);
        assert Retained(a) == Retained(a[1..]);
      } else {
        assert Retained(ab) == [a[0]] + Retained(ab[1..]);
        assert Retained(a) == [a[0]] + Retained(a[1..]);
      }
    } else {
      assert a + b == b;
    }
  }

  /**
   * Pretty-printing of `.json` content. `prettyJson` stands for
   * `JSON.stringify(JSON.parse(text), null, 2)`; `None` is a parse failure,
   * which keeps the original text.
   */
  function FormatContent(relativePath: string, content: string, prettyJson: string -> Option<string>): (r: string)
    ensures !EndsWith(relativePath, ".json") ==> r == content
    ensures EndsWith(relativePath, ".json") && prettyJson(content).None? ==> r == content
    ensures EndsWith(relativePath, ".json") && prettyJson(content).Some? ==> r == prettyJson(content).value
  {
    if EndsWith(relativePath, ".json") then prettyJson(content).GetOr(content) else content
  }

  /**
   * The displayed entries for a successful compile: the retained files,
   * keyed 0..n-1 in order, `.json` content pretty-printed.
   */
  function DisplayEntries(files: seq<FileInfo>, prettyJson: string -> Option<string>): (r: seq<OutputFile>)
    ensures var kept := Retained(files);
            |r| == |kept|
            && forall k :: 0 <= k < |r| ==>
                 r[k].kind == File && r[k].key == k
                 && r[k].relativePath == kept[k].relativePath
                 && !IsBoilerplateFile(r[k].relativePath)
                 && r[k].content == FormatContent(kept[k].relativePath, kept[k].content, prettyJson)
  {
    var kept := Retained(files);
    seq(|kept|, k requires 0 <= k < |kept| =>
      assert kept[k] in kept;
      OutputFile(File, kept[k].relativePath, k, FormatContent(kept[k].relativePath, kept[k].content, prettyJson)))
  }

  // ------------------------------------------------------- finding: keys

  /**
   * The entries as the component builds them: `Object.entries` over the
   * result ARRAY pairs every file with its index string, and it is that
   * string which the filter and the label see as the path.
   */
  function EntriesAsWritten(files: seq<FileInfo>): (r: seq<(string, FileInfo)>)
    ensures |r| == |files|
    ensures forall i :: 0 <= i < |r| ==> r[i] == (NatToString(i), files[i])
  {
    seq(|files|, i requires 0 <= i < |files| => (NatToString(i), files[i]))
  }

  function FilterEntriesAsWritten(entries: seq<(string, FileInfo)>): seq<(string, FileInfo)> {
    if |entries| == 0 then []
    else
      var rest := FilterEntriesAsWritten(entries[1..]);
      if IsBoilerplateFile(entries[0].0) then rest else [entries[0]] + rest
  }

  /** An index string is all digits, so it has no `/` and one segment. */
  lemma IndexKeyNotBoilerplate(i: nat)
    ensures !IsBoilerplateFile(NatToString(i))
  {
    var s := NatToString(i);
    assert '/' !in s by {
      forall k | 0 <= k < |s| ensures s[k] != '/' {
        assert IsDigit(s[k]);
      }
    }
    CountAbsent(s, '/');
    ShortPathNotBoilerplate(s);
  }

  /** As written, the boilerplate filter removes nothing at all. */
  lemma {:induction false} AsWrittenFilterKeepsAll(files: seq<FileInfo>)
    ensures FilterEntriesAsWritten(EntriesAsWritten(files)) == EntriesAsWritten(files)
  {
    var entries := EntriesAsWritten(files);
    forall k | 0 <= k < |entries| ensures !IsBoilerplateFile(entries[k].0) {
      IndexKeyNotBoilerplate(k);
    }
    FilterNone(entries);
  }

  lemma {:induction false} FilterNone(entries: seq<(string, FileInfo)>)
    requires forall k :: 0 <= k < |entries| ==> !IsBoilerplateFile(entries[k].0)
    ensures FilterEntriesAsWritten(entries) == entries
    decreases |entries|
  {
    if |entries| > 0 {
      FilterNone(entries[1..]);
    }
  }

  /**
   * Counterexample: a file in a reserved namespace (for instance
   * `datapack/data/load/function/main.mcfunction`) is shown by the code as
   * written, while the intended filter hides it.
   */
  lemma AsWrittenShowsBoilerplate(parts: seq<string>, content: string, prettyJson: string -> Option<string>)
    requires |parts| >= 4 && Segments(parts) && parts[2] in BoilerplateNamespaces
    ensures var files := [FileInfo(Join(parts, "/"), content)];
            IsBoilerplateFile(files[0].relativePath)
            && FilterEntriesAsWritten(EntriesAsWritten(files)) == [(NatToString(0), files[0])]
            && DisplayEntries(files, prettyJson) == []
  {
    var files := [FileInfo(Join(parts, "/"), content)];
    ReservedNamespaceHidden(parts);
    AsWrittenFilterKeepsAll(files);
    assert Retained(files[1..]) == [];
  }

  // -------------------------------------------------------------- imports

  /** The import line put in front of the code for the detected exports. */
  function ImportStatement(usedExports: seq<string>): (r: string)
    ensures r == "" <==> |usedExports| == 0
    ensures |usedExports| > 0 ==>
              StartsWith(r, "import { ") && EndsWith(r, " } from 'sandstone'\n\n")
              && |r| >= 30 && r[9..|r| - 21] == Join(usedExports, ", ")
  {
    if |usedExports| > 0 then
      var names := Join(usedExports, ", ");
      var r := "import { " + names + " } from 'sandstone'\n\n";
      assert r[9..|r| - 21] == names;
      r
    else ""
  }

  /** The text handed to the compiler: the import line, then the code verbatim. */
  function CodeWithImports(usedExports: seq<string>, code: string): (r: string)
    ensures StartsWith(r, ImportStatement(usedExports))
    ensures r[|ImportStatement(usedExports)|..] == code
    ensures EndsWith(r, code)
    ensures |usedExports| == 0 ==> r == code
  {
    var line := ImportStatement(usedExports);
    var r := line + code;
    assert r[..|line|] == line;
    assert r[|line|..] == code;
    assert r[|r| - |code|..] == code;
    r
  }
}
