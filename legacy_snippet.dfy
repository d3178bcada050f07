/**
 * The older live snippet: the editor holds a three-line import header
 * followed by the code; the code without the header is compiled when it
 * changed, diagnostics are gated as in the newer snippet, and a successful
 * build rewrites the header with the imports the compiler reports.
 *
 * The compile promise is explicit: a build records the code it compiles
 * and the editor text its callback sees, and settles by a later event.
 */
module LegacySnippet {
  import opened Wrappers
  import opened Strings
  import opened SnippetOutput

  /** `getCodeWithoutImports`: every line after the first three. */
  function CodeWithoutImports(code: string): string {
    Join(Drop(Split(code, '\n'), 3), "\n")
  }

  /** The first header line, which silences the type checker on the import. */
  const TsIgnoreLine: string := "//@ts-ignore"

  /** The second header line: the imports the compiler reports. */
  function ImportLine(imports: seq<string>): (r: string)
    ensures StartsWith(r, "import { ") && EndsWith(r, " } from 'sandstone'")
    ensures |r| >= 28 && r[9..|r| - 19] == Join(imports, ", ")
  {
    var names := Join(imports, ", ");
    var r := "import { " + names + " } from 'sandstone'";
    assert r[9..|r| - 19] == names;
    r
  }

  /** The header a successful build writes in front of the code. */
  function ImportHeader(imports: seq<string>): (r: string)
    ensures StartsWith(r, TsIgnoreLine + "\n") && EndsWith(r, "\n\n")
    ensures |r| >= 15 && r[13..|r| - 2] == ImportLine(imports)
  {
    var line := ImportLine(imports);
    var r := TsIgnoreLine + "\n" + line + "\n\n";
    assert r[13..|r| - 2] == line;
    r
  }

  /** The pieces of three lines without line breaks, each followed by one, and then the code. */
  lemma SplitThreeLines(l1: string, l2: string, l3: string, code: string)
    requires '\n' !in l1 && '\n' !in l2 && '\n' !in l3
    ensures Split(l1 + ['\n'] + (l2 + ['\n'] + (l3 + ['\n'] + code)), '\n')
            == [l1] + ([l2] + ([l3] + Split(code, '\n')))
  {
    var rest3 := l3 + ['\n'] + code;
    var rest2 := l2 + ['\n'] + rest3;
    SplitAround(l3, '\n', code);
    SplitAround(l2, '\n', rest3);
    SplitAround(l1, '\n', rest2);
  }

  /** Dropping three such lines gives back the code verbatim. */
  lemma DropThreeLines(l1: string, l2: string, l3: string, code: string)
    requires '\n' !in l1 && '\n' !in l2 && '\n' !in l3
    ensures CodeWithoutImports(l1 + "\n" + l2 + "\n" + l3 + "\n" + code) == code
  {
    var s := l1 + ['\n'] + (l2 + ['\n'] + (l3 + ['\n'] + code));
    assert s == l1 + "\n" + l2 + "\n" + l3 + "\n" + code;
    SplitThreeLines(l1, l2, l3, code);
    var tail := Split(code, '\n');
    var parts := [l1] + ([l2] + ([l3] + tail));
    assert Drop(parts, 3) == tail;
    JoinSplit(code, '\n');
  }

  /**
   * Stripping the header a build wrote gives back the code it compiled,
   * as long as the joined import names hold no line break.
   */
  lemma HeaderRoundTrip(imports: seq<string>, code: string)
    requires '\n' !in Join(imports, ", ")
    ensures CodeWithoutImports(ImportHeader(imports) + code) == code
  {
    var prefix, suffix := "import { ", " } from 'sandstone'";
    assert forall i :: 0 <= i < |prefix| ==> prefix[i] != '\n';
    assert forall i :: 0 <= i < |suffix| ==> suffix[i] != '\n';
    assert forall i :: 0 <= i < |TsIgnoreLine| ==> TsIgnoreLine[i] != '\n';
    NoBreakInConcat(prefix, Join(imports, ", "), suffix);
    DropHeaderLines(TsIgnoreLine, ImportLine(imports), code);
  }

  lemma NoBreakInConcat(a: string, b: string, c: string)
    requires '\n' !in a && '\n' !in b && '\n' !in c
    ensures '\n' !in a + b + c
  {
  }

  /** Two header lines and a blank line are dropped, leaving the code verbatim. */
  lemma DropHeaderLines(l1: string, l2: string, code: string)
    requires '\n' !in l1 && '\n' !in l2
    ensures CodeWithoutImports(l1 + "\n" + l2 + "\n\n" + code) == code
  {
    assert l1 + "\n" + l2 + "\n\n" + code == l1 + "\n" + l2 + "\n" + "" + "\n" + code;
    DropThreeLines(l1, l2, "", code);
  }

  const InitialHeaderLine1: string := TsIgnoreLine
  const InitialHeaderLine2: string := "import {} from 'sandstone'"

  /**
   * The editor's first text: a line break, the header with an empty import
   * list, a blank line and the trimmed code, all trimmed.
   */
  function InitialEditorValue(code: string): string {
    Trim("\n" + InitialHeaderLine1 + "\n" + InitialHeaderLine2 + "\n\n" + Trim(code))
  }

  /** `previousCode` starts as this literal text, not as the trimmed code. */
  const InitialPreviousCode: string := "props.code.trim()"

  /** One leading line break is trimmed off text that starts with a visible character. */
  lemma TrimLeadingBreak(body: string)
    requires |body| > 0 && !IsSpace(body[0])
    ensures TrimStart("\n" + body) == body
  {
    assert ("\n" + body)[1..] == body;
  }

  /** Trailing white space ends at the last visible character. */
  lemma TrimEndKeeps(s: string)
    requires |s| > 0 && !IsSpace(s[|s| - 1])
    ensures TrimEnd(s) == s
  {
  }

  /** Two trailing line breaks are trimmed off text that ends with a visible character. */
  lemma TrimTrailingBreaks(s: string)
    requires |s| > 0 && !IsSpace(s[|s| - 1])
    ensures TrimEnd(s + "\n\n") == s
  {
    assert (s + "\n\n")[..|s| + 1] == s + "\n";
    assert (s + "\n")[..|s|] == s;
  }

  /** Text of two lines has nothing after its first three lines. */
  lemma DropTwoLines(l1: string, l2: string)
    requires '\n' !in l1 && '\n' !in l2
    ensures CodeWithoutImports(l1 + "\n" + l2) == ""
  {
    assert l1 + "\n" + l2 == l1 + ['\n'] + l2;
    SplitAround(l1, '\n', l2);
    SplitSingle(l2, '\n');
    assert Drop(Split(l1 + "\n" + l2, '\n'), 3) == [];
  }

  lemma InitialHeaderLines()
    ensures '\n' !in InitialHeaderLine1 && '\n' !in InitialHeaderLine2
    ensures !IsSpace(InitialHeaderLine1[0]) && !IsSpace(InitialHeaderLine2[|InitialHeaderLine2| - 1])
  {
    assert forall i :: 0 <= i < |InitialHeaderLine1| ==> InitialHeaderLine1[i] != '\n';
    assert forall i :: 0 <= i < |InitialHeaderLine2| ==> InitialHeaderLine2[i] != '\n';
  }

  /**
   * A line break, two header lines, a blank line and text already trimmed,
   * all trimmed and stripped of the first three lines, give back the text.
   */
  lemma TrimmedHeaderRoundTrip(l1: string, l2: string, t: string)
    requires '\n' !in l1 && '\n' !in l2
    requires |l1| > 0 && !IsSpace(l1[0]) && |l2| > 0 && !IsSpace(l2[|l2| - 1])
    requires |t| > 0 ==> !IsSpace(t[|t| - 1])
    ensures CodeWithoutImports(Trim("\n" + l1 + "\n" + l2 + "\n\n" + t)) == t
  {
    var header := l1 + "\n" + l2;
    var body := header + "\n\n" + t;
    assert "\n" + l1 + "\n" + l2 + "\n\n" + t == "\n" + body;
    assert body[0] == l1[0];
    TrimLeadingBreak(body);
    if |t| > 0 {
      assert body[|body| - 1] == t[|t| - 1];
      TrimEndKeeps(body);
      assert body == l1 + "\n" + l2 + "\n" + "" + "\n" + t;
      DropThreeLines(l1, l2, "", t);
    } else {
      assert body == header + "\n\n";
      assert header[|header| - 1] == l2[|l2| - 1];
      TrimTrailingBreaks(header);
      DropTwoLines(l1, l2);
    }
  }

  /** The first text of the editor, stripped of its header, is the trimmed code. */
  lemma InitialValueRoundTrip(code: string)
    ensures CodeWithoutImports(InitialEditorValue(code)) == Trim(code)
  {
    InitialHeaderLines();
    TrimmedHeaderRoundTrip(InitialHeaderLine1, InitialHeaderLine2, Trim(code));
  }

  /** A build waiting for its promise: the code it compiles and the editor text its callback sees. */
  datatype PendingBuild = PendingBuild(code: string, editorValueSeen: string)

  /** How a build settles: the compiler's result and the imports it used, or an error. */
  datatype BuildOutcome = Built(result: seq<OutputFile>, imports: seq<string>) | Failed

  /** The state the legacy `compile` reads and writes. */
  datatype LegacyState = LegacyState(
    editorValue: string,
    previousCode: string,
    compiledDataPack: seq<OutputFile>,
    pending: seq<PendingBuild>)

  /**
   * `compile`: text equal to the last attempted text starts nothing;
   * otherwise the text is recorded at once, before the diagnostics gate,
   * and either the diagnostics report is shown or a build starts.
   */
  function Compile(s: LegacyState, code: string, errors: seq<Marker>): (r: (LegacyState, Option<string>))
    ensures Trim(code) == s.previousCode ==> r == (s, None)
    ensures Trim(code) != s.previousCode ==> r.0.previousCode == Trim(code) && r.0.editorValue == s.editorValue
    ensures Trim(code) != s.previousCode && HasBlockingMarker(errors) ==>
              r.1.None? && r.0.compiledDataPack == [ErrorReport(errors)] && r.0.pending == s.pending
    ensures r.1.Some? <==> Trim(code) != s.previousCode && !HasBlockingMarker(errors)
    ensures r.1.Some? ==>
              r.1.value == code && r.0.compiledDataPack == s.compiledDataPack
              && r.0.pending == s.pending + [PendingBuild(code, s.editorValue)]
  {
    if s.previousCode == Trim(code) then (s, None)
    else
      var recorded := s.(previousCode := Trim(code));
      if HasBlockingMarker(errors) then (recorded.(compiledDataPack := [ErrorReport(errors)]), None)
      else (recorded.(pending := s.pending + [PendingBuild(code, s.editorValue)]), Some(code))
  }

  /**
   * Text that was gated by diagnostics is not checked again: any later
   * request with the same trimmed text, whatever its markers, does nothing.
   */
  lemma GatedTextNotRechecked(s: LegacyState, code: string, errors: seq<Marker>,
                              again: string, laterErrors: seq<Marker>)
    requires Trim(code) != s.previousCode && HasBlockingMarker(errors)
    requires Trim(again) == Trim(code)
    ensures var gated := Compile(s, code, errors).0;
            Compile(gated, again, laterErrors) == (gated, None)
  {
  }

  /**
   * The settlement of pending build `job`: on success the result is shown
   * and the editor text is replaced by the new header and the compiled
   * code unless that equals the text the callback saw; on failure only the
   * build is gone.
   */
  function Settle(s: LegacyState, job: nat, outcome: BuildOutcome): (r: LegacyState)
    requires job < |s.pending|
    ensures r.previousCode == s.previousCode
    ensures |r.pending| == |s.pending| - 1
    ensures forall k :: 0 <= k < |r.pending| ==> r.pending[k] == s.pending[if k < job then k else k + 1]
    ensures outcome.Failed? ==> r.editorValue == s.editorValue && r.compiledDataPack == s.compiledDataPack
    ensures outcome.Built? ==>
              r.compiledDataPack == outcome.result
              && var newValue := ImportHeader(outcome.imports) + s.pending[job].code;
                 r.editorValue == if newValue != s.pending[job].editorValueSeen then newValue else s.editorValue
  {
    var rest := s.pending[..job] + s.pending[job + 1..];
    match outcome
    case Built(result, imports) =>
      var newValue := ImportHeader(imports) + s.pending[job].code;
      s.(compiledDataPack := result,
         editorValue := if newValue != s.pending[job].editorValueSeen then newValue else s.editorValue,
         pending := rest)
    case Failed => s.(pending := rest)
  }

  /**
   * After a build rewrites the editor text, the effect that follows
   * compiles exactly the code that was built, so it starts nothing unless
   * another text was attempted in between.
   */
  lemma RewriteDoesNotRebuild(s: LegacyState, job: nat, result: seq<OutputFile>, imports: seq<string>,
                              errors: seq<Marker>)
    requires job < |s.pending|
    requires '\n' !in Join(imports, ", ")
    requires Trim(s.pending[job].code) == s.previousCode
    requires ImportHeader(imports) + s.pending[job].code != s.pending[job].editorValueSeen
    ensures var settled := Settle(s, job, Built(result, imports));
            CodeWithoutImports(settled.editorValue) == s.pending[job].code
            && Compile(settled, CodeWithoutImports(settled.editorValue), errors) == (settled, None)
  {
    HeaderRoundTrip(imports, s.pending[job].code);
  }

  class LegacySnippetComponent {
    var editorValue: string
    var editorErrors: seq<Marker>
    var previousCode: string
    var compiledDataPack: seq<OutputFile>
    var pending: seq<PendingBuild>

    ghost function State(): LegacyState
      reads this
    {
      LegacyState(editorValue, previousCode, compiledDataPack, pending)
    }

    constructor (code: string)
      ensures State() == LegacyState(InitialEditorValue(code), InitialPreviousCode, [], [])
      ensures editorErrors == []
      ensures CodeWithoutImports(editorValue) == Trim(code)
    {
      editorValue := InitialEditorValue(code);
      editorErrors := [];
      previousCode := InitialPreviousCode;
      compiledDataPack := [];
      pending := [];
      InitialValueRoundTrip(code);
    }

    /** `compile(code, errors)`. */
    method CompileCode(code: string, errors: seq<Marker>) returns (submitted: Option<string>)
      modifies this`previousCode, this`compiledDataPack, this`pending
      ensures (State(), submitted) == Compile(old(State()), code, errors)
    {
      if previousCode == Trim(code) {
        return None;
      }
      previousCode := Trim(code);
      var blocked := FindBlockingMarker(errors);
      if blocked {
        compiledDataPack := [ErrorReport(errors)];
        return None;
      }
      pending := pending + [PendingBuild(code, editorValue)];
      submitted := Some(code);
    }

    /**
     * The editor reports new text or new markers; the effect then compiles
     * the text without its header.
     */
    method EditorChanged(value: string, errors: seq<Marker>) returns (submitted: Option<string>)
      modifies this
      ensures editorValue == value && editorErrors == errors
      ensures (State(), submitted) == Compile(old(State()).(editorValue := value), CodeWithoutImports(value), errors)
    {
      editorValue := value;
      editorErrors := errors;
      submitted := CompileCode(CodeWithoutImports(value), errors);
    }

    /** The promise of pending build `job` settles. */
    method BuildSettled(job: nat, outcome: BuildOutcome)
      requires job < |pending|
      modifies this`editorValue, this`compiledDataPack, this`pending
      ensures State() == Settle(old(State()), job, outcome)
    {
      var build := pending[job];
      pending := pending[..job] + pending[job + 1..];
      match outcome
      case Built(result, imports) =>
        compiledDataPack := result;
        var newEditorValue := ImportHeader(imports) + build.code;
        if newEditorValue != build.editorValueSeen {
          editorValue := newEditorValue;
        }
      case Failed =>
    }
  }
}
