# Sandstone documentation: live snippets, editor recovery and tabs

A Dafny model of the logic behind the interactive code snippets of the
Sandstone documentation site. A snippet is a code editor whose text is
compiled into a Minecraft data pack, with the generated files shown as tabs
under the editor. The model covers:

- **The snippet controller** (`SnippetOutput`, `SnippetClient`, `ExportDetection`):
  - which generated paths count as build scaffolding and are hidden;
  - how TypeScript diagnostics gate a build and are folded into the single
    "Failed to Compile:" report;
  - how the compile result is filtered, re-keyed and pretty-printed;
  - the implicit import line put in front of the code;
  - the visibility-gated effect, the debounce, and the 5-second rate limit
    with its single deferred build;
  - the `previousCode` skip.
- **The older snippet** (`LegacySnippet`): the three-line import header that
  `getCodeWithoutImports` strips and a successful build rewrites, and its
  `compile`.
- **Editor crash recovery** (`MonacoRecovery`):
  - the error classifier;
  - the handler with its strict 2000 ms cooldown and `isRecovering` flag;
  - the one-time installation of the window listeners;
  - the `resetKey` counter.
- **Tabs** (`Tabs`, `CodeOutput`, `FileTab`):
  - which tab is displayed when the list of values changes under the
    selection;
  - the group choice and the arrow-key focus that wraps around;
  - the output panel's tab labels;
  - the file-name tab's extension, icon and width.
- **The markdown transform** (`CodeWhitespace`): it parses `height=` and
  `filename="…"` from a code fence's meta string and replaces each
  `sandstone` code block, in place, by an `InteractiveSnippet` element.
- **The id counter** (`UniqueId`): `getUniqueId` and `useComponentId`.
- **Shared modules**: `Strings` holds the JavaScript string operations these
  rely on (`split`, `join`, `trim`, `includes`, decimal interpolation,
  `parseInt`), and `Wrappers` holds `Option`.

State that the source changes step by step is modelled as classes:
`SnippetController`, `RecoveryManager`, `LegacySnippetComponent`,
`TabsState`, `IdCounter`/`IdRef`, and the children array the transform
splices. Each class method is proved against a state function: for example
`StartCompile`, `Settle`, `Respond`, `Compile`, `IndexToDisplay` and
`TransformAll`. Clocks, timers, the viewport observer and promise settlement
are explicit parameters and event methods.

Where the code departs from the intended design, the model follows the code,
with two exceptions: the two bugs under "## Findings". For each, the code as
written is modelled and the bug exhibited, and the controller and the tab
state then run the corrected rule (see "## Left out"). Otherwise:

- **More than errors gate a build.** Diagnostics gate the build when the owner
  is `typescript` and severity is above 1, that is every severity above Hint:
  Info (2) and Warning (4) block the build as well as Error (8).
- **The report lists every TypeScript marker.** It holds the TypeScript-owned
  markers of every severity, not just the blocking ones.
- **A recovery does not always bump `resetKey`.** It increments `resetKey`
  only when a provider has registered its trigger. The cooldown and the
  recovering flag are set either way.
- **Builds are not limited to one at a time.** Nothing in the code keeps a
  single build in flight or makes the latest one win. Each build still in
  flight is kept, and any of them may settle in any order.
- **The scaffolding filter as written hides nothing.** The first finding
  below says why. `SnippetClient.Settle` displays the corrected listing
  (`DisplayEntries`), which does hide scaffolding.
- **The displayed tab as written can lie past the end of the list.** The
  second finding below says when. `Tabs.TabsState.Render` uses the corrected
  rule (`IndexToDisplay`).

## Model

| member | source | states |
|---|---|---|
| Strings.Split | src/components/CodeOutput.tsx:18 | `split` on one character yields at least one piece, and no piece holds the separator |
| Strings.JoinSplit | src/components/InteractiveSnippet.tsx:10 | joining the pieces of a split with the separator gives back the text |
| Strings.SplitJoin | src/components/CodeOutput.tsx:18-22 | splitting a join of separator-free pieces (at least one) gives back the pieces |
| Strings.SplitCount | src/components/InteractiveSnippetClient.tsx:63-64 | a split has one more piece than the text has separators |
| Strings.SplitLast | src/components/FileTab.tsx:6 | the last piece of a split is exactly the text after the last separator |
| Strings.SplitSingle | src/components/FileTab.tsx:5 | a split has a single piece exactly when the separator is absent |
| Strings.LastIndexOf | src/components/InteractiveSnippetClient.tsx:67 | the position of the last occurrence of a character (-1 if none), with no occurrence after it |
| Strings.ContainsAt | src/components/InteractiveSnippetClient.tsx:77 | `includes` holds exactly when the substring occurs at some position |
| Strings.ContainsWithin | src/components/MonacoRecoveryContext.tsx:47-48 | a text that contains `a + sub + b` contains `sub` |
| Strings.TrimStart | src/components/InteractiveSnippetClient.tsx:173 | the result is a suffix that starts with a visible character, and everything dropped is white space |
| Strings.TrimEnd | src/components/InteractiveSnippetClient.tsx:173 | the result is a prefix that ends with a visible character, and everything dropped is white space |
| Strings.Trim | src/components/InteractiveSnippetClient.tsx:173 | `trim`: `TrimStart` then `TrimEnd`, whose contracts give its meaning |
| Strings.NatToString | src/components/InteractiveSnippetClient.tsx:185 | a number prints as a non-empty run of decimal digits |
| Strings.DecimalValue | plugins/preserve-code-whitespace.js:45 | `parseInt(_, 10)` on a run of digits; `DecimalRoundTrip` shows it inverts `NatToString` |
| Strings.DecimalRoundTrip | plugins/preserve-code-whitespace.js:45 | `parseInt(_, 10)` of a printed number gives the number back |
| SnippetOutput.IsBoilerplateFile | src/components/InteractiveSnippetClient.tsx:60-81 | `isBoilerplateFile`, read through its segments; its meaning is given by `ShortPathNotBoilerplate`, `ReservedNamespaceHidden`, `InitFunctionHidden`, `LoadTagRule` and `OrdinaryPathShown` |
| SnippetOutput.StripExtension | src/components/InteractiveSnippetClient.tsx:67 | the last `.` and what follows are removed when at least one character follows; otherwise the name is unchanged |
| SnippetOutput.ShortPathNotBoilerplate | src/components/InteractiveSnippetClient.tsx:63-64 | a path with fewer than four `/`-separated segments is never scaffolding |
| SnippetOutput.JoinedPathRule | src/components/InteractiveSnippetClient.tsx:60-81 | deciding on a joined path is deciding on the segments it was joined from |
| SnippetOutput.ReservedNamespaceHidden | src/components/InteractiveSnippetClient.tsx:66-70 | a path whose segment 2 is `load` or `__sandstone__` is scaffolding |
| SnippetOutput.InitFunctionHidden | src/components/InteractiveSnippetClient.tsx:67-73 | a path whose leaf stem is `__init__` is scaffolding in any namespace |
| SnippetOutput.LoadTagRule | src/components/InteractiveSnippetClient.tsx:76-80 | in namespace `minecraft` with stem `load`, a path is scaffolding exactly when it contains `/tags/` |
| SnippetOutput.OrdinaryPathShown | src/components/InteractiveSnippetClient.tsx:60-81 | a path outside the reserved and `minecraft` namespaces, not `__init__`, is shown |
| SnippetOutput.FindBlockingMarker | src/components/InteractiveSnippetClient.tsx:179-181 | the marker loop finds a blocker exactly when some marker is TypeScript-owned with severity above 1 |
| SnippetOutput.ErrorContent | src/components/InteractiveSnippetClient.tsx:182-187 | the `reduce` fold over the markers; `ErrorContentIsLines` proves it equal to the TypeScript markers' lines in order |
| SnippetOutput.ErrorReport | src/components/InteractiveSnippetClient.tsx:182-187 | the report is an `errors` entry at "Failed to Compile:" with key 0, whose content is the TypeScript markers' `[line:col] message` lines in order |
| SnippetOutput.ErrorContentIsLines | src/components/InteractiveSnippetClient.tsx:182-187 | the `reduce` fold equals the concatenation of the TypeScript markers' lines; other owners add nothing |
| SnippetOutput.Retained | src/components/InteractiveSnippetClient.tsx:206 | the kept files are exactly the non-scaffolding ones |
| SnippetOutput.RetainedAppend | src/components/InteractiveSnippetClient.tsx:205-206 | filtering distributes over concatenation, so relative order is kept |
| SnippetOutput.FormatContent | src/components/InteractiveSnippetClient.tsx:209-216 | a `.json` file that parses becomes its pretty-printed text; a parse failure keeps the original, and any other file is unchanged |
| SnippetOutput.DisplayEntries | src/components/InteractiveSnippetClient.tsx:205-223 | the entries are the kept files in order, keyed 0..n-1, none of them scaffolding, with formatted content |
| SnippetOutput.EntriesAsWritten | src/components/InteractiveSnippetClient.tsx:205-207 | `Object.entries` of the result array pairs each file with its index string |
| SnippetOutput.FilterEntriesAsWritten | src/components/InteractiveSnippetClient.tsx:205-206 | the filter as written over the index-keyed entries; `AsWrittenFilterKeepsAll` proves it removes nothing |
| SnippetOutput.IndexKeyNotBoilerplate | src/components/InteractiveSnippetClient.tsx:63-64 | an index string is never taken for scaffolding |
| SnippetOutput.AsWrittenFilterKeepsAll | src/components/InteractiveSnippetClient.tsx:205-206 | as written, the filter removes no entry at all |
| SnippetOutput.AsWrittenShowsBoilerplate | src/components/InteractiveSnippetClient.tsx:205-207 | a reserved-namespace file is shown as written but hidden by the intended filter |
| SnippetOutput.ImportStatement | src/components/InteractiveSnippetClient.tsx:196-198 | the import line is empty exactly when no export is used; otherwise `import { `, the used names joined with `, `, then ` } from 'sandstone'` and a blank line |
| SnippetOutput.CodeWithImports | src/components/InteractiveSnippetClient.tsx:199 | the compiled text is the import line followed by the code verbatim, and is the code itself when no export is used |
| ExportDetection.Visit | src/components/InteractiveSnippetClient.tsx:33-53 | the visit extends the names found so far, without repeats, by the exports among the free identifiers |
| ExportDetection.VisitAll | src/components/InteractiveSnippetClient.tsx:52 | the same for the children of a node, in order |
| ExportDetection.DetectUsedExports | src/components/InteractiveSnippetClient.tsx:16-58 | the used exports are the free identifiers that are exports, each once |
| SnippetClient.Admit | src/components/InteractiveSnippetClient.tsx:237-254 | build now exactly when no build started yet or 5000 ms have passed; otherwise wait until 5000 ms after the last start |
| SnippetClient.StartCompile | src/components/InteractiveSnippetClient.tsx:171-202 | same trimmed text: nothing changes. Otherwise the build time is stamped, then the report is shown (loading off) or a build of the code with its import line starts |
| SnippetClient.Settle | src/components/InteractiveSnippetClient.tsx:203-229 | success records the built text as `previousCode` and displays the filtered entries; failure keeps them; either way loading ends and the build leaves the in-flight list |
| SnippetClient.NoRebuildOfSameText | src/components/InteractiveSnippetClient.tsx:173-175 | after a build of some text succeeds, a request with that text starts nothing |
| SnippetClient.GatedTextIsRechecked | src/components/InteractiveSnippetClient.tsx:173-190 | a gated attempt records nothing, so the same text is gated again and stamps the build time again |
| SnippetClient.SnippetController.constructor | src/components/InteractiveSnippetClient.tsx:133-169 | empty output, loading, not visible, no timers, no build time, `previousCode` "" |
| SnippetClient.SnippetController.BecameVisible | src/components/InteractiveSnippetClient.tsx:152-158 | the observer marks the snippet as seen |
| SnippetClient.SnippetController.ResetKeyChanged | src/components/InteractiveSnippetClient.tsx:144-150 | a recovery (`resetKey` > 0) re-arms the visibility gate |
| SnippetClient.SnippetController.InputChanged | src/components/InteractiveSnippetClient.tsx:257-266 | nothing before the snippet was seen; then pending is marked when the text differs from a non-empty last build, and the debounce holds the latest call |
| SnippetClient.SnippetController.DoCompile | src/components/InteractiveSnippetClient.tsx:171-175 | pending is cleared, and the new state and submitted text are `StartCompile` of the old state |
| SnippetClient.SnippetController.Launch | src/components/InteractiveSnippetClient.tsx:176-202 | past the `previousCode` gate, the new state and submitted text are `StartCompile` of the old state |
| SnippetClient.SnippetController.DebounceElapsed | src/components/InteractiveSnippetClient.tsx:236-255 | any deferred build is cancelled; then a build starts now or exactly one is deferred to 5000 ms after the last start; the rate limit holds between build starts |
| SnippetClient.SnippetController.RateLimitElapsed | src/components/InteractiveSnippetClient.tsx:250-253 | the deferred build runs as `StartCompile`, and the timer is gone |
| SnippetClient.SnippetController.CompileSettled | src/components/InteractiveSnippetClient.tsx:203-229 | the new state is `Settle` of the old one |
| MonacoRecovery.MessageOf | src/components/MonacoRecoveryContext.tsx:30 | the error's message, else the event's message, else "" (an empty string counts as absent); `Classify` and `Respond` state their rules over it |
| MonacoRecovery.StackOf | src/components/MonacoRecoveryContext.tsx:31 | the error's stack, else ""; `Classify` and `Respond` state their rules over it |
| MonacoRecovery.Classify | src/components/MonacoRecoveryContext.tsx:29-52 | suppress-only exactly for "Canceled" during a recovery; ours exactly when the message or stack carries one of the known signatures |
| MonacoRecovery.DoHitTestSubsumed | src/components/MonacoRecoveryContext.tsx:47-48 | the `doHitTest` test adds nothing to the `HitTest` test |
| MonacoRecovery.Respond | src/components/MonacoRecoveryContext.tsx:54-80 | handled exactly for our errors; the state changes exactly when a recovery fires (strict cooldown, not recovering), which stamps the time and sets the flag and bumps `resetKey` only when a trigger is registered |
| MonacoRecovery.QuietDuringCooldown | src/components/MonacoRecoveryContext.tsx:67 | no error within 2000 ms after a recovery starts another, whatever events come between |
| MonacoRecovery.AtMostOneRecoveryPerWindow | src/components/MonacoRecoveryContext.tsx:64-76 | errors that all fall in one 2000 ms window start at most one recovery |
| MonacoRecovery.ResetKeyMonotone | src/components/MonacoRecoveryContext.tsx:108-113 | `resetKey` never decreases and grows by at most one per recovery |
| MonacoRecovery.RecoveryManager.constructor | src/components/MonacoRecoveryContext.tsx:18-24 | no recovery yet, not recovering, no trigger, `resetKey` 0, no handler installed |
| MonacoRecovery.RecoveryManager.Install | src/components/MonacoRecoveryContext.tsx:25-100 | installs the three listeners once; a second call, or one without a window, changes nothing |
| MonacoRecovery.RecoveryManager.TriggerRecovery | src/components/MonacoRecoveryContext.tsx:110-113 | `resetKey` grows by exactly one |
| MonacoRecovery.RecoveryManager.ProviderMounted | src/components/MonacoRecoveryContext.tsx:116-119 | the trigger is registered and the handler is installed |
| MonacoRecovery.RecoveryManager.ProviderUnmounted | src/components/MonacoRecoveryContext.tsx:120-122 | the trigger is unregistered |
| MonacoRecovery.RecoveryManager.RecoveringTimerElapsed | src/components/MonacoRecoveryContext.tsx:73 | the recovering flag clears |
| MonacoRecovery.RecoveryManager.HandleError | src/components/MonacoRecoveryContext.tsx:54-80 | the new state and the result are `Respond`; an event of ours is default-prevented, and stopped when it can be |
| CodeOutput.Segment | src/components/CodeOutput.tsx:20 | a segment index past the end is absent |
| CodeOutput.TabLabel | src/components/CodeOutput.tsx:16-26 | the label of one path; `LabelOfSegments`, `SingleSegmentLabel` and `ErrorReportLabel` give its value |
| CodeOutput.LabelOfSegments | src/components/CodeOutput.tsx:16-28 | the label of `root/ns/kind/name…` is the name, prefixed by `ns:` unless `ns` is `default` |
| CodeOutput.SingleSegmentLabel | src/components/CodeOutput.tsx:18-26 | a path without `/` is labelled "undefined:" |
| CodeOutput.ErrorReportLabel | src/components/CodeOutput.tsx:18-26 | the diagnostics report is labelled "undefined:" |
| CodeOutput.ExtendFiles | src/components/CodeOutput.tsx:16-28 | one entry per file, same order, original fields kept, each carrying its file's label (`TabLabel`, whose meaning `LabelOfSegments` gives) |
| CodeOutput.CodeOutputTabs | src/components/CodeOutput.tsx:13-42 | nothing for an empty list; otherwise one tab per file whose value and label are its label, and the first label is the default |
| Tabs.FirstIndexOf | src/components/Tabs.tsx:103 | `findIndex`: the first position holding the value, -1 exactly when there is none |
| Tabs.IndexToDisplayAsWritten | src/components/Tabs.tsx:100-128 | `getIndexToDisplay` branch by branch, including the throw on an empty list |
| Tabs.AsWrittenDisplaysMissingTab | src/components/Tabs.tsx:102-127 | a selection past the end of a shrunk list whose value survives displays an index past the end, so no tab is active |
| Tabs.IndexToDisplay | src/components/Tabs.tsx:100-128 | corrected rule: the displayed index is always a tab of the list holding the value selected afterwards |
| Tabs.CorrectionOnlyAffectsMissingTab | src/components/Tabs.tsx:102-108 | whenever the index as written is a tab of the list, the corrected rule agrees |
| Tabs.DisplaySettles | src/components/Tabs.tsx:130-134 | for the display rule alone (no group choice to apply): after one render's updates, the next render displays the same tab and asks for no update |
| Tabs.NextSelection | src/components/Tabs.tsx:34-134 | the selection after one render, group sync included: it is always a value of the list; with no group choice to apply it is what the display rule asks for; when the display rule keeps the selection as it is, a group choice that applies becomes the selection at its first index; a value the display rule re-selects wins over the group choice, and an index the display rule moves to wins over the choice's index |
| Tabs.SettledIsFixed | src/components/Tabs.tsx:34-134 | a render of a settled selection leaves it as it is |
| Tabs.SettlesWithoutSync | src/components/Tabs.tsx:34-134 | when no group choice applies, one render reaches a settled selection |
| Tabs.RenderSettles | src/components/Tabs.tsx:34-134 | with the group sync, three renders of the same list always reach a selection that is displayed unchanged with no update and no group choice to apply |
| Tabs.ThirdRenderNeeded | src/components/Tabs.tsx:34-134 | the bound of three is reached: a missing selection with a group choice elsewhere in the list is still moving after two renders |
| Tabs.GroupChoiceSync | src/components/Tabs.tsx:34-45 | a stored group choice that differs from the selection and names a tab becomes the selection, at its first index |
| Tabs.FocusAfterKey | src/components/Tabs.tsx:79-98 | right arrow moves to the next tab, wrapping last to first; left arrow to the previous, wrapping first to last; other keys focus nothing |
| Tabs.WrapAround | src/components/Tabs.tsx:84-90 | the `|| tabRefs[0]` and `|| tabRefs[length-1]` fallbacks are steps modulo the tab count |
| Tabs.ArrowsAreInverse | src/components/Tabs.tsx:82-92 | left after right, and right after left, return to the same tab |
| Tabs.TabAttributes | src/components/Tabs.tsx:148-154 | at most one tab is selected, and it is the displayed one whenever that is a tab |
| Tabs.RenderedChildren | src/components/Tabs.tsx:166-181 | lazy: only the displayed child (a throw when none); otherwise every child, all but the displayed one hidden |
| Tabs.TabsState.constructor | src/components/Tabs.tsx:27-30 | the selection is the default value at the first child that holds it |
| Tabs.TabsState.Render | src/components/Tabs.tsx:29-134 | a render whose children lack the default value, or whose list is empty, throws and changes nothing; otherwise the new selection is `NextSelection` of the old one and the displayed index is the display rule's |
| Tabs.TabsState.SelectTab | src/components/Tabs.tsx:47-58 | selecting a tab sets its value and index, and stores the choice for the group |
| FileTab.GetExtension | src/components/FileTab.tsx:3-7 | "" without a `.`; otherwise the text after the last `.`, never holding a `.` |
| FileTab.ExtensionPresent | src/components/FileTab.tsx:3-7 | the extension is non-empty exactly when the name has a `.` and does not end with one |
| FileTab.RenderFileTab | src/components/FileTab.tsx:14-22 | width `10 * length + 15`; the icon shows exactly when the extension is non-empty |
| LegacySnippet.CodeWithoutImports | src/components/InteractiveSnippet.tsx:9-11 | `getCodeWithoutImports`; `DropThreeLines`, `DropHeaderLines` and `HeaderRoundTrip` show it drops exactly three lines and keeps the rest verbatim |
| LegacySnippet.ImportLine | src/components/InteractiveSnippet.tsx:48 | `import { … } from 'sandstone'` with the reported imports joined by `, ` between the braces |
| LegacySnippet.ImportHeader | src/components/InteractiveSnippet.tsx:47-50 | the `//@ts-ignore` line, the import line, then a blank line; `HeaderRoundTrip` shows `CodeWithoutImports` strips it again |
| LegacySnippet.InitialEditorValue | src/components/InteractiveSnippet.tsx:18-22 | the editor's first text; `InitialValueRoundTrip` shows it strips back to the trimmed code |
| LegacySnippet.DropThreeLines | src/components/InteractiveSnippet.tsx:9-11 | dropping three break-free lines gives back the rest verbatim |
| LegacySnippet.DropHeaderLines | src/components/InteractiveSnippet.tsx:9-11 | two lines and a blank line are dropped, leaving the code verbatim |
| LegacySnippet.HeaderRoundTrip | src/components/InteractiveSnippet.tsx:47-50 | stripping the header a build wrote gives back the compiled code when the joined imports hold no line break |
| LegacySnippet.TrimmedHeaderRoundTrip | src/components/InteractiveSnippet.tsx:18-22 | the trimmed header-plus-text, stripped of three lines, is the text |
| LegacySnippet.InitialValueRoundTrip | src/components/InteractiveSnippet.tsx:18-22 | the editor's first text, stripped of its header, is the trimmed code |
| LegacySnippet.Compile | src/components/InteractiveSnippet.tsx:26-44 | same trimmed text: nothing. Otherwise the text is recorded before the gate, then the report is shown or a build starts |
| LegacySnippet.GatedTextNotRechecked | src/components/InteractiveSnippet.tsx:27-43 | text gated once is never checked again, whatever its later markers |
| LegacySnippet.Settle | src/components/InteractiveSnippet.tsx:44-57 | success shows the result and rewrites the editor text only when the new header-plus-code differs from what the callback saw; failure changes nothing but the pending list |
| LegacySnippet.RewriteDoesNotRebuild | src/components/InteractiveSnippet.tsx:47-62 | after a rewrite, the following effect compiles exactly the built code and so starts nothing |
| LegacySnippet.LegacySnippetComponent.constructor | src/components/InteractiveSnippet.tsx:15-24 | the first editor text is the header with empty imports and the trimmed code; `previousCode` is the literal `'props.code.trim()'` |
| LegacySnippet.LegacySnippetComponent.CompileCode | src/components/InteractiveSnippet.tsx:26-58 | the new state and submitted code are `Compile` of the old state |
| LegacySnippet.LegacySnippetComponent.EditorChanged | src/components/InteractiveSnippet.tsx:60-62 | the effect compiles the editor text without its header |
| LegacySnippet.LegacySnippetComponent.BuildSettled | src/components/InteractiveSnippet.tsx:44-57 | the new state is `Settle` of the old one |
| CodeWhitespace.DigitRun | plugins/preserve-code-whitespace.js:27 | `\d+` is greedy: the run is all digits and stops before a non-digit or the end |
| CodeWhitespace.NonQuoteRun | plugins/preserve-code-whitespace.js:28 | `[^"]+` is greedy: the run holds no quote and stops at a quote or the end |
| CodeWhitespace.FirstHeightAt | plugins/preserve-code-whitespace.js:27 | the leftmost match of `/height=(\d+)/` from a position |
| CodeWhitespace.FirstFilenameAt | plugins/preserve-code-whitespace.js:28 | the leftmost match of `/filename="([^"]+)"/` from a position |
| CodeWhitespace.Height | plugins/preserve-code-whitespace.js:27-30 | the digits of the leftmost `height=<digits>` match, else "200" |
| CodeWhitespace.Filename | plugins/preserve-code-whitespace.js:28-31 | absent exactly when no `filename="…"` matches; otherwise the quoted text of the leftmost match, non-empty and quote-free |
| CodeWhitespace.DefaultHeightValue | plugins/preserve-code-whitespace.js:30-45 | `parseInt("200", 10)` is 200 |
| CodeWhitespace.SnippetAttributes | plugins/preserve-code-whitespace.js:38-61 | `height` (the digits and their decimal value), then `encodedCode` (the encoded code), then `filename` exactly when present |
| CodeWhitespace.SnippetElement | plugins/preserve-code-whitespace.js:38-69 | one childless `InteractiveSnippet` element whose attributes are the block's height, base64 code and optional file name (`SnippetAttributes` of its meta string and code) |
| CodeWhitespace.Transform | plugins/preserve-code-whitespace.js:21-69 | a `sandstone` code block becomes its `SnippetElement`; every other node keeps its kind and its fields, and its children become their transforms, each at its own index |
| CodeWhitespace.TransformAll | plugins/preserve-code-whitespace.js:21-72 | a sibling list keeps its length, and each sibling is transformed in place |
| CodeWhitespace.SnippetReplaced | plugins/preserve-code-whitespace.js:63-71 | a snippet code block becomes its element |
| CodeWhitespace.TransformFinishes | plugins/preserve-code-whitespace.js:19-74 | no snippet code block is left anywhere after the transform |
| CodeWhitespace.TransformKeepsFinished | plugins/preserve-code-whitespace.js:21-24 | a tree with no snippet code block is unchanged |
| CodeWhitespace.TransformIdempotent | plugins/preserve-code-whitespace.js:19-74 | transforming twice is transforming once |
| CodeWhitespace.VisitChild | plugins/preserve-code-whitespace.js:71 | `splice(index, 1, element)` replaces exactly that child, and no other sibling changes |
| CodeWhitespace.ReplaceInChildren | plugins/preserve-code-whitespace.js:21-72 | the children array becomes its transform, element by element |
| UniqueId.IdCounter.constructor | src/utils/getUniqueId.ts:3 | the counter starts at 0 with nothing handed out |
| UniqueId.IdCounter.GetUniqueId | src/utils/getUniqueId.ts:4 | returns the counter, then adds one; the id is above every earlier one |
| UniqueId.IssuedIdsIncrease | src/utils/getUniqueId.ts:3-4 | the ids handed out are strictly increasing, so pairwise distinct |
| UniqueId.IdRef.constructor | src/utils/getUniqueId.ts:7 | a component's ref starts empty |
| UniqueId.UseComponentId | src/utils/getUniqueId.ts:6-9 | the counter moves on at every render; the component keeps its first id |

## Left out

- `detectUsedExports`' TypeScript parser is not modelled. `ExportDetection` states its rule over an abstract syntax tree of identifiers, property accesses and other nodes.
- The `typeof window === 'undefined'` early return of `detectUsedExports` is not modelled. The used exports are a parameter of the compile.
- `src/utils/compiler.ts` is not part of this model: transpiling, `eval`, and saving the pack. The compiler's outcome is a parameter of the settlement event, and the text handed to it is the result of the compile method.
- `JSON.parse`/`JSON.stringify` pretty-printing is a parameter: a partial function whose failure keeps the original text.
- Base64 encoding is a parameter of the markdown transform.
- lodash `debounce` is not modelled beyond the single call it holds back; its event is `DebounceElapsed`, and its 500 ms delay is when the caller fires that event. The same goes for `setTimeout`, `Date.now` and `IntersectionObserver`: time and timer firings are explicit inputs.
- SnippetClient.Settle: displays the corrected listing `DisplayEntries` (scaffolding hidden, files keyed 0..n-1 by position, `relativePath` the file's path). The code as written displays every entry with its index string as path (first finding); that listing is `EntriesAsWritten`/`FilterEntriesAsWritten`, and the controller does not run it.
- SnippetClient.SnippetController.CompileSettled: inherits `Settle`'s corrected listing, for the same reason.
- Tabs.TabsState.Render: displays `IndexToDisplay`, the corrected rule. As written, a selection past the end of a shrunk list whose value survives displays that out-of-range index (second finding, `IndexToDisplayAsWritten`); the two agree whenever the index as written is a tab of the list (`CorrectionOnlyAffectsMissingTab`). The exceptions of a render are not modelled as such: a render whose children no longer hold `defaultValue` (`find(...)[1]` of `undefined`, recomputed at every render) or whose list is empty returns `None` and leaves the state as it was.
- Stale React closures are not modelled. The controller's events read the current fields.
- Promise settlement is explicit, one settlement per event. Interleavings inside one event are not modelled.
- In the legacy snippet, the editor value that a build's callback compares against is recorded when the build starts (`PendingBuild.editorValueSeen`). That is the value its closure captured.
- `src/components/Editor.tsx` and `src/components/Tab.tsx` are not part of this model.
- DOM focus, `scrollIntoView`, `isInViewport`, class toggling, JSX rendering, styles and `StatusIndicator` are left out. The model keeps the values rendering depends on: labels, the active tab, hidden children, width and icon.
- `console.log`/`console.warn` are left out.
- String lengths count characters, not UTF-16 code units.
- `parseInt` is exact; precision beyond 2^53 is not modelled.
- Tabs.TabsState.constructor: requires the default value to be among the children's values; the source throws when it is not (`find(...)[1]` of `undefined`).
- Tabs.FocusAfterKey: takes the index of the event's target among the tabs as a parameter (-1 when absent). It assumes the tab refs are the tabs in order, one per value.
- MonacoRecovery.RecoveryManager.Install: does not model the listeners' bodies separately. Each listener calls `HandleError`.
- The module-load installation at MonacoRecoveryContext.tsx:103-105 is the same `Install` call with `hasWindow` given.
- `useMonacoRecovery`/the React context plumbing is left out. `resetKey` reaches the snippet as the argument of `ResetKeyChanged`.

## Findings

| source | as written | input that shows it | evidently intended | confidence | as-written member | corrected member |
|---|---|---|---|---|---|---|
| src/components/InteractiveSnippetClient.tsx:205-207 | `Object.entries(result)` over the ARRAY that `compileDataPack` returns (src/utils/compiler.ts:57-69), so each entry's "path" is its index string ("0", "1", …) and the "content" is the whole file object; `isBoilerplateFile` then never matches, and nothing is hidden | a build emitting `datapack/data/load/function/main.mcfunction`: the index key "0" has one segment, so the file is shown | filter and key the files by their `relativePath` so scaffolding is hidden | not executed | SnippetOutput.AsWrittenShowsBoilerplate | SnippetOutput.DisplayEntries |
| src/components/Tabs.tsx:102-127 | the search for the selected value is guarded by `selectedIndex < values.length`; when the list shrinks but the selected value survives at a lower index, the out-of-range `selectedIndex` is returned | values `["a"]`, selectedValue "a", selectedIndex 1: index 1 is displayed, no tab is active, and the lazy child is `undefined` | display the first index holding the selected value | not executed | Tabs.AsWrittenDisplaysMissingTab | Tabs.IndexToDisplay |
