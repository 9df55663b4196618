# Verification of the auditor

Dafny models of nine parts of the auditor, each with the properties its code or documentation
promises. `dafny verify dfyconfig.toml` checks the whole project.

| modules | what they model |
|---|---|
| `SafeCut`, `HtmlTokens`, `RawText` | how much of a growing HTML stream the inline visualizer may render |
| `MarkerScan`, `MarkerHide`, `HiddenParts`, `ChatHider` | hiding visualization markers in a chat message that the page keeps rewriting |
| `DetailStrip`, `DetailTypes` | removing `details` blocks from a message's text |
| `Reconcile`, `DomReconciler` | merging a new tree into the live one without removing what others added |
| `Anonymizer`, `Restoring`, `Literals`, `Ambiguity`, `AnonymizerObject` | replacing values by tokens and restoring them |
| `AuditStrings`, `AuditControls`, `AuditParser`, `AuditPrinted`, `AuditText`, `AuditShapes`, `AuditComposite` | reading CIS `.audit` files |
| `EvidenceNames`, `EvidenceNumbers`, `EvidenceShared`, `EvidenceStore` | numbering evidence files across writers and re-openings |
| `RunFolders`, `RunOwner`, `RunTrees`, `Rebinding` | moving a run's folder to its final place |
| `Registry`, `RegistryStatuses`, `AuditRegistry` | audit runs, job attempts, cancellation |
| `RuntimeLifecycle`, `ApplicationRuntime` | starting and closing the application runtime |
| `PlanText`, `ScopePlan`, `PlanWords`, `PlanForms`, `PlanTables`, `PlanBullets`, `PlanPrinted`, `PlanMarkdown`, `PlanInputs`, `ScopeDecision`, `ScopeSelection` | host-to-framework plans and decisions about them |
| `Compliance`, `ComplianceReport` | compliance figures |
| `ResultStore` | the two indexes of the result store |
| `Text`, `PythonText`, `Characters`, `Lines`, `Decimal`, `Ordering`, `Sequences`, `Options` | string searching, white space, lines, padded numbers, sorting, optional values |

Where the source changes things step by step, the model is a class or a loop proved against a
specification function, and the main results are about that function. Where it has simple
expressions, they are functions.

Seven promises do not hold of the code as they are written down. The code is modelled as it is, and a
lemma says exactly when the promise holds:

* A second hide tick may hide elements that the first did not (`MarkerHide.SecondTickHidesMore`,
  with an example in `MarkerHide.OneTickIsNotEnough`).
* Restoring fails when two tokens can share characters at different places, as when one kind ends
  with another, like `P` and `IP` (`Restoring.SuffixKindsBreak`). For values of one character that no
  token contains, and matches that touch no placed token, it fails exactly then
  (`Ambiguity.SeparatedIsExact`). Tokens of the kinds that the repository uses cannot share characters
  while there are fewer than 1000 of each (`Restoring.GoodKindsSeparate`). A literal that matches
  inside a placed token, like `USER` after a user has been masked, is outside these theorems.
* Evidence numbers are used again after re-opening a run whose numbers passed 999, or whose
  requirement folders are not named `REQ...` while their framework has no report yet, as with the
  checklist ids `WIN-001` (exactly when is `EvidenceNumbers.ReopenIsSafe`; the two families are
  `EvidenceNumbers.PastThreeDigitsRepeats` and `EvidenceNumbers.UnreportedStartsOver`, an input is
  `EvidenceNumbers.WindowsIdStartsOver`). Text files past 999 are not listed either
  (`EvidenceNames.ListedName`).
* The phase of a runtime can move from closed back to closing when a close overlaps the cleanup of a
  failed start (`RuntimeLifecycle.OverlapMovesBackward`). This needs a pool that the runtime owns and
  that still has a borrower when the cleanup's deadline passes, so that closing it fails late.
* Excluding and including do not split a plan when a framework id is matched otherwise than its
  stripped form (`ScopeDecision.UnstrippedLandsTwice`), or a pair without a host meets a row without
  one (`ScopeDecision.HostlessPairLosesIds`); exactly when is `ScopeDecision.DecisionsSplitThePlan`.
* A printed plan does not read back when a host or a display name holds a line end
  (`PlanMarkdown.PlanRoundTrip`, `PlanInputs.HostOnTwoLines`); a printed control not when a text of it
  holds a line end other than a newline (`AuditText.PrintedControlsAreFound`).
* Two stores open on one run folder hand out the same numbers (`EvidenceShared.TwoStoresCollide`);
  exactly when they do not is `EvidenceShared.TurnsKeepOrder`.

Also, `save_run` returns silently for a run that does not exist, and `cancel_run` cancels the open
jobs of a finished run before it raises; both are modelled so.

## Model

| member | source | states |
|---|---|---|
| HtmlTokens.CutIsLongestComplete | openwebui/inline-visualizer-v2/tool.py:2716-2838 | what may be rendered of a stream is a sequence of plain characters, complete tags, complete comments and CDATA sections and complete script/style elements, and no longer prefix is one |
| HtmlTokens.CutIsPrefixStable | openwebui/inline-visualizer-v2/tool.py:2716-2838 | as the stream grows the cut never moves back, so rendered prefixes nest; cutting at the cut gives the same cut |
| HtmlTokens.TokenIsUnit | openwebui/inline-visualizer-v2/tool.py:2730-2836 | a token of the grammar is exactly what the incremental scanner consumes at its first character |
| HtmlTokens.UnitIsToken | openwebui/inline-visualizer-v2/tool.py:2730-2836 | conversely, what the scanner consumes as a unit is a token of the grammar |
| HtmlTokens.CutPasses | openwebui/inline-visualizer-v2/tool.py:2716-2838 | the cut passes complete tokens one after the other |
| HtmlTokens.TokenPrefix | openwebui/inline-visualizer-v2/tool.py:2716-2838 | whether a token stands at a place does not depend on what has not arrived yet |
| SafeCut.FindSafeCut | openwebui/inline-visualizer-v2/tool.py:2716-2838 | the loop over `i`, `state` and `safeCut` finds that cut and ends, although some turns consume nothing |
| SafeCut.TagStep | openwebui/inline-visualizer-v2/tool.py:2782-2836 | one turn in a tag state goes on with the same tag; a turn that consumes nothing leads to a state that does |
| RawText.RawTextIsHeld | openwebui/inline-visualizer-v2/tool.py:2714-2838 | from a `<script` or `<style` tag on, in any letter case, with attributes or white space and without a slash, nothing may be rendered until `</` with the same name in any case and a `>` behind it have arrived |
| RawText.RawTextIsPassed | openwebui/inline-visualizer-v2/tool.py:2714-2838 | with its first closing mark and the first `>` behind that, the whole element may be |
| RawText.OtherTagsPass | openwebui/inline-visualizer-v2/tool.py:2714-2838 | every other tag passes at once: closing ones, self-closing ones, and all names that spell no raw-text element |
| RawText.QuotedTagPasses | openwebui/inline-visualizer-v2/tool.py:2789-2836 | a `>` between quotes does not end a tag, whichever quote and white space is used |
| RawText.CommentIsHeld | openwebui/inline-visualizer-v2/tool.py:2745-2757 | a comment keeps everything back until `-->` has arrived |
| RawText.CommentPasses | openwebui/inline-visualizer-v2/tool.py:2745-2757 | and then passes whole, whatever it encloses |
| RawText.SectionIsHeld | openwebui/inline-visualizer-v2/tool.py:2758-2770 | so does a CDATA section until its closing brackets |
| RawText.SectionPasses | openwebui/inline-visualizer-v2/tool.py:2758-2770 | and then passes whole |
| MarkerScan.ScanPrinted | openwebui/inline-visualizer-v2/tool.py:2356-2381 | scanning a message printed from prose and marked ranges keeps exactly the prose and ends inside or outside a range as the message does |
| MarkerScan.EveryTextIsAMessage | openwebui/inline-visualizer-v2/tool.py:2348-2381 | every text is the print of such a message, stray and missing markers included, so the previous row speaks about all texts |
| MarkerScan.ScanJoin | openwebui/inline-visualizer-v2/tool.py:2490-2504 | scanning node by node with the state handed on equals scanning the concatenation, when no marker straddles the boundary |
| MarkerScan.ScanNodesIsScanJoin | openwebui/inline-visualizer-v2/tool.py:2490-2504 | the same for any number of nodes |
| MarkerScan.NoOverlap | openwebui/inline-visualizer-v2/tool.py:1930-1931 | the two markers cannot overlap each other or themselves |
| MarkerScan.ScanNodeText | openwebui/inline-visualizer-v2/tool.py:2356-2381 | the scanning loop keeps what the scan keeps and leaves in the state the scan leaves in |
| MarkerScan.PartialStartSuffixLength | openwebui/inline-visualizer-v2/tool.py:2341-2346 | the longest suffix, of at least three characters, with which a start marker may be arriving |
| MarkerScan.PartialCoversArrivingStart | openwebui/inline-visualizer-v2/tool.py:2337-2346 | whatever arrives next, a start marker it completes was covered, once three of its characters are there |
| DetailStrip.StripPrinted | openwebui/inline-visualizer-v2/tool.py:2054-2087 | stripping a printed forest of `details` blocks is printing the forest without the stripped subtrees, at any depth and inside kept blocks |
| DetailStrip.StripForest | openwebui/inline-visualizer-v2/tool.py:2054-2087 | the same with any text from the next tag on behind the forest |
| DetailStrip.StripUnclosed | openwebui/inline-visualizer-v2/tool.py:2066-2087 | a stripped block that is never closed removes everything to the end |
| DetailStrip.StripArriving | openwebui/inline-visualizer-v2/tool.py:2060-2066 | an opening tag that is still arriving is dropped exactly when its type already shows |
| DetailStrip.StripDetailRanges | openwebui/inline-visualizer-v2/tool.py:2054-2087 | the stripping loop computes that for every text, and ends |
| DetailStrip.SkipBlock | openwebui/inline-visualizer-v2/tool.py:2071-2085 | the depth counter finds the end of a stripped block |
| DetailTypes.StripByType | openwebui/inline-visualizer-v2/tool.py:2054-2087 | the blocks that go are exactly those whose opening tag shows `type`, white space or none, `=`, and in double quotes the name of a tool-call, code-execution or code-interpreter block, or `reasoning` where that is skipped |
| DetailTypes.ArrivingByType | openwebui/inline-visualizer-v2/tool.py:2060-2066 | an opening tag still arriving goes exactly when it shows one already |
| MarkerHide.TickKeepsTexts | openwebui/inline-visualizer-v2/tool.py:1982-2040 | a tick never changes the text that any node stands for: the page's text stays recoverable |
| MarkerHide.TickShowsProse | openwebui/inline-visualizer-v2/tool.py:2490-2522 | after a tick every node shows exactly its prose, a marker still arriving at the end left out; prose of white space shows as nothing, or as it is when the node holds nothing else |
| MarkerHide.TickRestores | openwebui/inline-visualizer-v2/tool.py:2663-2705 | nodes that are all prose have their own text back and no stash entry |
| MarkerHide.NoProseIsHidden | openwebui/inline-visualizer-v2/tool.py:2564-2629 | no hidden element covers a node with prose |
| HiddenParts.HiddenExactly | openwebui/inline-visualizer-v2/tool.py:2549-2629 | exactly which elements a tick hides: safe ones only, and of those the blocks of marked nodes in which all text is white space or marked, and those without content and text shown, strictly between marked nodes with no prose between |
| HiddenParts.ProseOutside | openwebui/inline-visualizer-v2/tool.py:2335-2381 | the prose of a node that begins outside marker ranges, said of its text as a message: what no range encloses, less, at the end of a message still streaming, the longest end that may be a start marker arriving |
| HiddenParts.ProseInside | openwebui/inline-visualizer-v2/tool.py:2348-2381 | the same of a node that begins inside a range: nothing before the first end marker is prose |
| HiddenParts.ProseOfMessage | openwebui/inline-visualizer-v2/tool.py:2490-2522 | the prose of the nodes joined is the prose of the whole message, when no marker is spread over two nodes |
| HiddenParts.ProseOfNode | openwebui/inline-visualizer-v2/tool.py:2490-2522 | only in the last walked node can a start marker be arriving; nodes that are not walked are all prose |
| MarkerHide.SecondTickKeepsCells | openwebui/inline-visualizer-v2/tool.py:2385-2706 | a second tick writes no node and changes no stash entry |
| MarkerHide.SecondTickHidesMore | openwebui/inline-visualizer-v2/tool.py:2588-2629 | exactly which elements only a second tick hides, told from the state before the first: safe, content-free ones strictly inside a marked segment that outlive pass 2 and hold text, all of which the first tick blanks after its sweep |
| MarkerHide.ThirdTickChangesNothing | openwebui/inline-visualizer-v2/tool.py:2385-2706 | hidden elements only grow with the second tick, and the third tick changes nothing |
| MarkerHide.OneTickIsNotEnough | openwebui/inline-visualizer-v2/tool.py:2588-2629 | a concrete message on which the second tick hides an element that the first did not |
| MarkerHide.RunsKeepTexts | openwebui/inline-visualizer-v2/tool.py:1982-2040 | through every interleaving of page writes, nodes that arrive or leave, and ticks each node stands for what the page last wrote there |
| MarkerHide.RunsShowProse | openwebui/inline-visualizer-v2/tool.py:2385-2706 | after every such run that ends with a tick, each node shows the prose of the page's own text |
| MarkerHide.UnseenWriteIsLost | openwebui/inline-visualizer-v2/tool.py:1982-1994 | a page write that is empty or equal to the hider's last write is lost, exactly unless it repeats the old text |
| ChatHider.Hider.HideMarkerRange | openwebui/inline-visualizer-v2/tool.py:2385-2706 | the three passes over node values, stash and registry bring the message into the state the tick prescribes |
| ChatHider.Hider.MarkNodes | openwebui/inline-visualizer-v2/tool.py:2441-2522 | pass 1 finds every node's fate and the marked segments |
| ChatHider.Hider.PickBlocks | openwebui/inline-visualizer-v2/tool.py:2564-2586 | pass 2 hides exactly the safe, fully marked blocks; every other marked node is to be blanked |
| ChatHider.Hider.Sweep | openwebui/inline-visualizer-v2/tool.py:2588-2629 | pass 2 sweeps exactly the text-free, content-free, safe elements between segment ends |
| ChatHider.Hider.Apply | openwebui/inline-visualizer-v2/tool.py:2631-2706 | pass 3 gives every node its new value and stash entry |
| ChatHider.Hider.Restore | openwebui/inline-visualizer-v2/tool.py:2686-2705 | restoring one node puts the original back unless the page has overwritten it, and forgets only that node |
| ChatHider.Hider.BlankPreserving | openwebui/inline-visualizer-v2/tool.py:2023-2032 | blanking a node keeps what it stands for in the stash |
| ChatHider.Hider.TrimPreserving | openwebui/inline-visualizer-v2/tool.py:2034-2040 | trimming a node keeps what it stands for in the stash |
| ChatHider.Hider.GetEffectiveText | openwebui/inline-visualizer-v2/tool.py:1982-1994 | the page's text, whether or not it has been written over |
| ChatHider.Hider.PageWrite | openwebui/inline-visualizer-v2/tool.py:1982-1994 | a write by the page touches one value and no stash entry |
| ChatHider.Hider.IsFullyMarked | openwebui/inline-visualizer-v2/tool.py:2564-2576 | whether every text node under an element is white space or marked |
| Reconcile.MergeExtension | openwebui/inline-visualizer-v2/tool.py:2938-2976 | merging a tree that extends the live one along its right spine yields exactly the incoming tree |
| Reconcile.MergeConverges | openwebui/inline-visualizer-v2/tool.py:2938-2976 | exactly when a merge yields the incoming tree: nothing is left over, and matched comments and attributes agree |
| Reconcile.MergeTwice | openwebui/inline-visualizer-v2/tool.py:2938-2976 | merging the same tree again changes nothing, whatever was there before |
| Reconcile.ForeignSurvives | openwebui/inline-visualizer-v2/tool.py:2940-2976 | nodes added by others past the incoming children, or under an incoming leaf, survive unchanged |
| Reconcile.StreamFollows | openwebui/inline-visualizer-v2/tool.py:2938-2976 | on a growing stream the live tree is always the latest incoming one |
| DomReconciler.ReconcileInto | openwebui/inline-visualizer-v2/tool.py:2938-2976 | the loop over live nodes changes the tree into that merge, and removes no node when the incoming tree is an extension |
| DomReconciler.ReconcileAt | openwebui/inline-visualizer-v2/tool.py:2949-2970 | one position: only its child may be replaced, and only when it does not fit |
| DomReconciler.ImportAndAppend | openwebui/inline-visualizer-v2/tool.py:2913-2936 | appends a copy of the incoming node and keeps all nodes |
| Restoring.RoundTrip | src/auditor/anonymization.py:130-163 | restoring undoes anonymizing for every text, state, list of passes and order of tokens, also after other texts have been anonymized, when no token occurs in the source, no match touches a placed token, every match is its own value, and no two tokens can share characters at different places |
| Restoring.RestorePieces | src/auditor/anonymization.py:158-163 | under the same conditions every text made of source and placed tokens is restored |
| Restoring.GoodKindsSeparate | src/auditor/anonymization.py:50-59 | tokens cannot share characters at different places when no kind has a digit or is a proper suffix of another and every counter is below 1000 |
| Ambiguity.SeparatedIsExact | src/auditor/anonymization.py:130-163 | that condition on tokens is exact: for a state whose values are single characters foreign to all tokens, every text is restored if and only if it holds, kinds with digits included |
| Ambiguity.OverlapIsAmbiguous | src/auditor/anonymization.py:130-163 | otherwise two different texts are anonymized to the same text, so no way of restoring can be right for both |
| Restoring.SuffixKindsBreak | src/auditor/anonymization.py:158-163 | for any two digit-free kinds of which one is a proper suffix of the other some run from an empty state does not restore its text |
| Restoring.RunIsRender | src/auditor/anonymization.py:130-156 | running passes on the text is refining it into untouched source and placed tokens; the source it stands for does not change |
| Restoring.OverlapIsEqual | src/auditor/anonymization.py:50-59 | two such tokens that share a character in a text are the same token at the same place |
| Restoring.OnlyWherePlaced | src/auditor/anonymization.py:158-163 | a token occurs in the masked text only where it was placed |
| Anonymizer.MintKeepsOk | src/auditor/anonymization.py:50-59 | the two maps stay mutual inverses, no token given before changes, and every value has its own token |
| Anonymizer.TokenInjective | src/auditor/anonymization.py:50-59 | a token tells its kind and its number |
| Anonymizer.WeaveRefined | src/auditor/anonymization.py:61-68 | replacing in the text is replacing in its pieces |
| Literals.LiteralPassTakesAll | src/auditor/anonymization.py:117-128 | a literal pass leaves no occurrence of its value in untouched text |
| Literals.LiteralsAreGone | src/auditor/anonymization.py:130-156 | after a whole run no literal occurs in the masked text |
| Literals.KindIsPlain | src/auditor/anonymization.py:50-59 | a token's kind is the given kind's letters and digits in order, others between them only as underscores and none at an end, `VALUE` without any |
| Literals.DomainsAreNamed | src/auditor/anonymization.py:130-163 | bare domains get tokens of kind `DOMAIN`, and every match of one stands for the cleaned domain |
| AnonymizerObject.ReversibleAnonymizer.TokenFor | src/auditor/anonymization.py:50-59 | the object's maps and counters change as minting prescribes; the value's token is returned |
| AnonymizerObject.ReversibleAnonymizer.ReplaceMatches | src/auditor/anonymization.py:61-68 | a pattern pass mints as it meets the matches and replaces each by its token |
| AnonymizerObject.ReversibleAnonymizer.AnonymizeText | src/auditor/anonymization.py:130-156 | the passes in order compute the run of which the round trip speaks |
| AnonymizerObject.ReversibleAnonymizer.DeanonymizeText | src/auditor/anonymization.py:158-163 | restores in some longest-first order of all tokens |
| AuditStrings.UnescapeAuditString | scripts/convert_cis_audit.py:92-119 | the decoding loop decodes what the decoder means, also a backslash at the end |
| AuditStrings.UnescapeEscape | scripts/convert_cis_audit.py:92-119 | decoding undoes encoding of newline, tab, quote and backslash, for every string |
| AuditStrings.ParseQuotedOrBare | scripts/convert_cis_audit.py:122-158 | the reader that rescans its growing buffer returns the decoded text before the first unescaped quote of all that follows, and advances one line per newline in it |
| AuditStrings.ReadPrinted | scripts/convert_cis_audit.py:122-158 | reading an encoded value returns it, for every string, without leaving the line |
| AuditStrings.QuoteStays | scripts/convert_cis_audit.py:142-153 | a closing quote once found stays found when lines are added |
| AuditStrings.QuoteIsLater | scripts/convert_cis_audit.py:142-158 | without one, the next is found in the added lines only |
| AuditStrings.QuoteInLastLine | scripts/convert_cis_audit.py:142-158 | the lines consumed are the newlines before the quote |
| AuditStrings.FindQuote | scripts/convert_cis_audit.py:143-152 | the inner scan finds the first quote that no backslash escapes |
| AuditStrings.ParseBlockFields | scripts/convert_cis_audit.py:161-190 | the fields of a block and the line it ends on, past the end of the file when it is never closed |
| AuditStrings.BlockRoundTrip | scripts/convert_cis_audit.py:161-190 | a printed block reads back as the dictionary it was printed from, wherever it stands, and the reader stops on its closing line |
| AuditControls.HoldsWhatOccurs | scripts/convert_cis_audit.py:271-278 | the catalogue holds and lists exactly the ids that occur |
| AuditControls.OrderIsFirstSeen | scripts/convert_cis_audit.py:271-278 | in the order in which they first occur, so each once |
| AuditControls.CatalogIsRichest | scripts/convert_cis_audit.py:279-300 | of every control the longest title, info and solution (the first of that length), the first non-empty other fields, and every non-empty command once |
| AuditControls.AddCmdsUnites | scripts/convert_cis_audit.py:298-300 | merging commands loses none that is not empty and repeats none |
| AuditParser.ParseAudit | scripts/convert_cis_audit.py:252-370 | the walk over the lines ends on every file and leaves the catalogue of every control the file defines |
| AuditParser.ReadNext | scripts/convert_cis_audit.py:305-368 | one turn of the walk finds the next control, the next line and the helpers still waiting |
| AuditParser.Parser.UpsertControl | scripts/convert_cis_audit.py:271-300 | a new id is listed, a known one merged in place; other records are untouched |
| AuditParser.Parser.Listing | scripts/convert_cis_audit.py:370 | the controls in first-seen order |
| AuditParser.Record.Absorb | scripts/convert_cis_audit.py:279-300 | one record takes over what is longer, missing or new |
| AuditParser.GatherHelpers | scripts/convert_cis_audit.py:341-347 | commands and check types of the helpers, in order |
| Lines.SplitJoinIsExact | src/auditor/intake.py:429 | joined lines are found again, except for a last empty one, if and only if none holds a line end of any kind that `splitlines` knows |
| Characters.LineEndsSplit | src/auditor/intake.py:429 | every line end splits a text, a carriage return with a newline behind it once, and a text without any is one line |
| AuditText.FileRoundTrip | scripts/convert_cis_audit.py:252-364 | the text of a printed file defines exactly the controls of its blocks, in order |
| AuditText.FileLinesAreFound | scripts/convert_cis_audit.py:267 | its lines are found again if and only if values hold no line end but newlines, and report types and plain lines none |
| AuditText.BlocksInAPlainLine | scripts/convert_cis_audit.py:267 | otherwise a plain line can hold whole blocks: the control in it is found although no block defines it |
| AuditText.PrintedControlsAreFound | scripts/convert_cis_audit.py:252-364 | printing controls and parsing the text finds them again, in order, if and only if their texts hold no line end but newlines |
| AuditText.ParsedIsClear | scripts/convert_cis_audit.py:123-180 | whatever the lines, a control that is read holds no line end but newlines |
| AuditPrinted.ControlRoundTrip | scripts/convert_cis_audit.py:306-327 | reading a printed control gives the control back |
| AuditPrinted.TitleRoundTrip | scripts/convert_cis_audit.py:233-249 | the id and title of a printed description are found again |
| AuditComposite.FileIsTold | scripts/convert_cis_audit.py:252-370 | parsing the text of any file of items, reports and lines finds exactly the controls that its printed entries tell, in order: an item with a title has all fields of its own; a PASSED, FAILED or WARNING report with one has its own texts, the non-empty commands of the helpers that wait before it, in order, and their types, each once, joined by `+`, or `COMPOSITE`; helpers are items without a title, and are dropped by every report, every item with a title, and every `</if` and `<else` line, but by no other; everything else defines nothing |
| AuditComposite.ToldOnce | scripts/convert_cis_audit.py:252-370 | what the blocks tell is determined, so the previous row leaves no choice |
| AuditShapes.TitleIs | scripts/convert_cis_audit.py:233-249 | a description is a control's exactly if, stripped, it is a dotted number, white space, and a title on one line; id and title are these parts |
| AuditShapes.FieldIs | scripts/convert_cis_audit.py:161-190 | exactly which lines hold a field, and its key and raw value |
| AuditShapes.ReportTagIs | scripts/convert_cis_audit.py:36-43 | exactly which lines open a report, and of which type |
| AuditShapes.BodyIsRead | scripts/convert_cis_audit.py:161-190 | of the lines of a block the entries are read, the last one of every key counts, lines without a field are passed over, and a block that is never closed holds all lines to the end of the file |
| AuditShapes.BareValue | scripts/convert_cis_audit.py:122-158 | a value without quotes is its line, stripped, less double quotes behind it |
| AuditShapes.EscapesAre | scripts/convert_cis_audit.py:86-119 | what every backslash sequence stands for |
| EvidenceNames.SeqOfName | src/auditor/evidence_store.py:56 | a number is read back from its file name exactly when it has three digits |
| EvidenceNames.NameIs | src/auditor/evidence_store.py:798-895 | up to 999 a file name is three digits, an underscore, the tool and the suffix |
| EvidenceNumbers.FilesAreNamed | src/auditor/evidence_store.py:798-895 | a ticket is written as two files, a JSON and a text one, under that name |
| EvidenceNames.NamesInOrder | src/auditor/evidence_store.py:953-971 | up to 999, names sort as numbers do |
| EvidenceNames.ListedName | src/auditor/evidence_store.py:966-970 | of a ticket's files only the text file is listed, and that exactly up to number 999 |
| EvidenceNumbers.RunsNeverReuse | src/auditor/evidence_store.py:791-803 | whatever writers, lost writes, reports and recoverable re-openings are mixed, no folder sees a number twice and later numbers are larger |
| EvidenceNumbers.NewRunsNeverReuse | src/auditor/evidence_store.py:791-803 | so in every run that starts from an empty folder |
| EvidenceNumbers.ReopenIsSafe | src/auditor/evidence_store.py:486-536 | re-opening keeps this exactly if every number still out or written is covered by a written three-digit one in a folder that seeding looks into |
| EvidenceNumbers.UnsafeReopenReuses | src/auditor/evidence_store.py:486-536 | otherwise some later write of the folder takes a number that was used before |
| EvidenceShared.TurnsKeepOrder | src/auditor/evidence_store.py:791-803 | when several stores are open on one folder, no number is used twice and later ones are larger if and only if every store that hands one out has caught up with all others |
| EvidenceShared.TwoStoresCollide | src/auditor/evidence_store.py:791-803 | two stores whose counters agree hand out the same number |
| EvidenceNumbers.ListingIsTicketOrder | src/auditor/evidence_store.py:953-971 | after every run the listing of a folder is the text files of its written tickets up to 999 in the order in which their numbers were handed out, and nothing else |
| EvidenceStore.Store.ListToolResultFiles | src/auditor/evidence_store.py:953-971 | filtering and sorting the files of a folder gives that listing |
| EvidenceNumbers.CountedExactly | src/auditor/evidence_store.py:486-536 | exactly which folders seeding looks into, by their names: those of frameworks at the root, or of frameworks below a host folder that is none itself; a framework holds a report, or a folder whose name begins with the letters R, E, Q in any case; hidden folders are left out |
| EvidenceNumbers.UsualFolderIsCounted | src/auditor/evidence_store.py:516-536 | so requirement folders whose names begin with R, E, Q in any case are looked into, unless one on the way is hidden or a host folder is taken for a framework |
| EvidenceNumbers.OtherFolderNeedsReport | src/auditor/evidence_store.py:516-536 | of folders in frameworks without such names, at either depth, exactly those whose framework has a report |
| EvidenceNumbers.UnreportedStartsOver | src/auditor/evidence_store.py:486-536 | in all others, at either depth, the first write after a re-opening takes number 1 again |
| EvidenceNumbers.PastThreeDigitsRepeats | src/auditor/evidence_store.py:486-536 | a folder that has passed 999 gets at most 1000 after a re-opening, which repeats a number |
| EvidenceNumbers.WindowsIdStartsOver | src/auditor/evidence_store.py:516-524 | a run that writes once under requirement WIN-001 is not recoverable: re-opened, it hands out 1 again |
| EvidenceStore.Store.SeedCountersFromDisk | src/auditor/evidence_store.py:486-536 | the walk over the run folder raises exactly the counters of the folders it looks into to their largest number |
| EvidenceStore.Store.ScanFramework | src/auditor/evidence_store.py:496-513 | one framework folder: every requirement folder in it reaches its largest number |
| EvidenceStore.Store.StartToolResult | src/auditor/evidence_store.py:791-796 | under the lock the folder's next number is taken and nothing else changes |
| EvidenceStore.Store.FinishToolResult | src/auditor/evidence_store.py:798-895 | both files appear under the number, and nothing disappears |
| Rebinding.RunFolder.RebindRunId | src/auditor/evidence_store.py:212-377 | accepts exactly if the destination is new or empty, or its manifest names the client and run given (or the run named by the path) and is the source's own, if that has one; a refusal changes nothing; an accepted re-binding leaves the overlay in the new folder under the manifest of an owner known in full, nothing in the old, reseeded counters, and every other run untouched |
| Rebinding.RunFolder.CheckDestination | src/auditor/evidence_store.py:287-327 | a destination with files is accepted only under a manifest that matches what is known and the source's own |
| Rebinding.RunFolder.MoveItems | src/auditor/evidence_store.py:329-346 | moving the items one by one ends in the overlay and removes the source |
| Rebinding.RunFolder.StampOwnership | src/auditor/evidence_store.py:350-375 | a known owner's manifest takes the place of any other |
| RunOwner.AcceptedIsAdmitted | src/auditor/evidence_store.py:255-327 | a folder with files is accepted exactly if its manifest names an owner that is as the caller and the path say and as the source's manifest has it: another client's or run's never is |
| RunOwner.KnownOwnerIsStamped | src/auditor/evidence_store.py:350-375 | when client and run are known, from the caller, the path or the source's manifest in this order, the new folder's manifest names exactly them |
| RunFolders.CopyIsOverlay | src/auditor/evidence_store.py:335-337 | copying a tree over another keeps every source file, and every other destination file |
| RunFolders.ReboundIsOverlay | src/auditor/evidence_store.py:329-346 | apart from the manifest, the new folder holds every source file and every destination file the source does not have |
| RunFolders.ReboundOwner | src/auditor/evidence_store.py:270-375 | the owner of the result: the expected one when known; never another than that of a destination with files |
| RunFolders.CountersReachBoth | src/auditor/evidence_store.py:376 | the counters of folders that seeding looks into have reached the largest number of either tree |
| RunTrees.DiskIsTree | src/auditor/evidence_store.py:486-536 | seeding sees, of any tree, exactly the folders two and three levels down with the files in them, and the folders with a `report.md` at one and two levels |
| Registry.SequencesKeepOk | src/auditor/audit_registry.py:203-500 | after every sequence of creating, starting, retrying, finishing, planning and cancelling, attempts are 1..n, only the latest may run, so at most one does, and no run has changed its client |
| Registry.StartKeepsOk | src/auditor/audit_registry.py:437-481 | starting or retrying keeps this and leaves the latest attempt running |
| Registry.TransitionKeepsOk | src/auditor/audit_registry.py:423-435 | a status change keeps it exactly if it does not start an attempt that is not the latest |
| Registry.CreateKeepsOk | src/auditor/audit_registry.py:311-343 | creating a job directly keeps it exactly if the latest attempt is not running |
| Registry.CancelKeepsOk | src/auditor/audit_registry.py:270-283 | a cancelled run has no open job, whether the call returns or raises, and other jobs are untouched; it returns exactly for pending, running and cancelled runs |
| Registry.RunTableKeepsOk | src/auditor/audit_registry.py:203-262 | saving and moving runs never changes a client |
| Registry.StepsStayInOrder | src/auditor/audit_registry.py:311-481 | however the single steps of any callers interleave, the tables stay in order throughout if and only if no job is created beside a running latest attempt and only latest attempts are started |
| Registry.InterleavedStartsBothRun | src/auditor/audit_registry.py:437-481 | two starts that both looked before either created leave two attempts running |
| RegistryStatuses.StartChanges | src/auditor/audit_registry.py:437-481 | exactly what a start changes: a pending latest attempt is started itself unless a new one is asked for; otherwise one attempt with the next number is created and started and a running one cancelled; no other job changes |
| RegistryStatuses.FinishedIsFinal | src/auditor/domain/audit_models.py:52-120 | whatever calls follow, an attempt that has completed, failed, been cancelled or skipped stays as it is |
| RegistryStatuses.RunMoves | src/auditor/domain/audit_models.py:52-120 | exactly along which changes of status a run moves, and that it completes only when every mandatory task is completed or skipped |
| RegistryStatuses.CancelChanges | src/auditor/audit_registry.py:270-283 | cancelling a run cancels exactly its pending and running jobs, also when the run itself has ended and stays as it is |
| RegistryStatuses.RunRowsAre | src/auditor/audit_registry.py:96-248 | a new run is pending and belongs to a client; a run is never saved for another client, and saving one that is not there changes nothing |
| RegistryStatuses.JobMoves | src/auditor/domain/audit_models.py:52-120 | and a job |
| RegistryStatuses.TerminalIs | src/auditor/domain/audit_models.py:361-384 | how a run ends: failed when a mandatory task is not done, partial when only optional ones are lost, completed otherwise |
| AuditRegistry.Registrar.StartJobAttempt | src/auditor/audit_registry.py:437-481 | the steps of a start change the job table as prescribed and never leave it in disorder |
| AuditRegistry.Registrar.CancelRun | src/auditor/audit_registry.py:270-283 | the loop over the jobs and the run's own change |
| AuditRegistry.Registrar.CreateJob | src/auditor/audit_registry.py:311-356 | a new pending attempt with the next number, or a refusal that changes nothing |
| AuditRegistry.Registrar.TransitionJob | src/auditor/audit_registry.py:423-435 | an allowed status change of one job, or a refusal that changes nothing |
| AuditRegistry.Registrar.SaveRun | src/auditor/audit_registry.py:203-248 | a run is saved only under its own client |
| AuditRegistry.Registrar.TransitionRun | src/auditor/audit_registry.py:250-262 | a run completes only when no latest mandatory attempt stands in the way |
| AuditRegistry.Registrar.FinalizeRun | src/auditor/audit_registry.py:294-309 | a run ends as completed, partial or failed according to its latest attempts |
| AuditRegistry.Registrar.LatestJobs | src/auditor/domain/audit_models.py:325-332 | the latest attempt of every task of a run |
| AuditRegistry.Registrar.CanCompleteRun | src/auditor/domain/audit_models.py:335-358 | whether no latest mandatory attempt blocks completion |
| AuditRegistry.Registrar.LatestJobForTask | src/auditor/audit_registry.py:380-391 | the latest attempt of one task, if any |
| RuntimeLifecycle.StepKeepsOk | src/auditor/application_runtime.py:106-223 | in every interleaving closed means that tasks, graph and owned pool are released, nothing released comes back, and the phase moves backward exactly on a failing answer after closing |
| RuntimeLifecycle.RunsKeepOk | src/auditor/application_runtime.py:106-223 | so over whole runs |
| RuntimeLifecycle.PhaseIsMonotone | src/auditor/application_runtime.py:106-223 | when no close begins during the cleanup of a failed start, the phase never moves backward and closed is final |
| RuntimeLifecycle.OverlapMovesBackward | src/auditor/application_runtime.py:162-223 | with such an overlap a closed runtime can become closing again |
| RuntimeLifecycle.RepeatedClosesFinish | src/auditor/application_runtime.py:173-223 | a timed-out close stays closing and keeps what it released; as many closes that get further as resources are left end closed |
| RuntimeLifecycle.CloseTakesSteps | src/auditor/application_runtime.py:186-223 | an undisturbed close is a sequence of the steps |
| ApplicationRuntime.Application.CloseUnlocked | src/auditor/application_runtime.py:186-223 | tasks, then graph, then pool, stopping at the first that does not answer in time |
| ApplicationRuntime.Application.Close | src/auditor/application_runtime.py:173-181 | keeps the runtime in order, reopens nothing, and reports whether it is closed |
| ApplicationRuntime.Application.Start | src/auditor/application_runtime.py:106-171 | a start runs, fails into a close, or changes nothing |
| ApplicationRuntime.Application.RequireOpen | src/auditor/application_runtime.py:93-98 | work is accepted exactly while running, and then finds a graph |
| PlanMarkdown.PlanRoundTrip | src/auditor/intake.py:409-503 | parsing the text of a printed plan gives back its hosts with their frameworks, in order, if and only if no host and no display name holds a line end; of names this is said when none of their lines begins like a bullet |
| PlanInputs.HostOnTwoLines | src/auditor/intake.py:429 | a host on two lines is lost |
| PlanInputs.NameOnTwoLines | src/auditor/intake.py:429 | and so is the host of a name on two lines |
| PlanInputs.BulletInNameReadsBack | src/auditor/intake.py:495-501 | a bullet in a name on several lines can make up for the row the name breaks |
| ScopePlan.ParsedIsClean | src/auditor/intake.py:433-503 | whatever the text, a parsed plan repeats no host and no framework in any case, and holds no discovery-only or unknown framework and no empty row |
| ScopePlan.ParseAuditPlan | src/auditor/intake.py:409-503 | the two loops over the lines compute the parse |
| ScopePlan.ParseTable | src/auditor/intake.py:454-492 | the first table with a host and a framework column is read, and only that |
| ScopePlan.ParseBullets | src/auditor/intake.py:495-501 | without table rows the bullet lines are read |
| ScopePlan.AddHost | src/auditor/intake.py:433-454 | one row is added to the growing plan |
| PlanText.SplitFrameworkIds | src/auditor/intake.py:376-393 | the ids of a cell without separators, fillers and repetition |
| PlanPrinted.SplitCell | src/auditor/intake.py:376-393 | the framework cell of a printed row splits into its ids |
| PlanWords.ParsedAreWords | src/auditor/intake.py:376-503 | whatever the text, every framework of a parsed plan is one word, without separators and outer backticks, no filler, nothing that only discovers, and on the allow-list if there is one |
| PlanWords.SameHostUnites | src/auditor/intake.py:433-454 | a row for a host that the plan has already adds to that host: name and frameworks stay, and every wanted one of the row is there |
| PlanWords.DashIsNothing | src/auditor/intake.py:376-393 | a cell that is only a dash names no framework |
| PlanForms.HeadingsAre | src/auditor/intake.py:328-359 | a heading is one for hosts, or for frameworks, exactly if it is one of the known words or holds the known parts |
| PlanTables.HeadIs | src/auditor/intake.py:459-477 | a line of cells is a table's head exactly if it has headings of both kinds; the columns are those of the first ones |
| PlanTables.TableIsRead | src/auditor/intake.py:456-492 | a table is read whatever its columns are and wherever it stands: its rows are added in order by the columns its head names first, behind a rule line and up to the first line that begins without a bar |
| PlanForms.BulletRoundTrip | src/auditor/intake.py:495-501 | a plan written as bullets, with any of their marks, reads back |
| PlanBullets.BulletIsBest | src/auditor/intake.py:361 | whatever the line, it is a bullet exactly if it can be read as mark, host, sign and frameworks, with white space and backticks where they may stand, and of all ways to read it the one with the longest host, and behind that the shortest rest, is taken |
| PlanForms.RuleIsNoRow | src/auditor/intake.py:454-492 | a rule line below a heading is no row of the plan |
| ScopeDecision.DecisionsSplitThePlan | src/auditor/intake.py:217-286 | for the same selectors, excluding and including are the two sides of the normalized plan, row by row and in order, if and only if every id that survives normalization is matched as it would be stripped |
| ScopeDecision.PartsMakeTheRow | src/auditor/intake.py:239-286 | of every row each framework lands in exactly one side, and both keep the order |
| ScopeDecision.NormalizeTwice | src/auditor/intake.py:316-324 | normalization is idempotent |
| ScopeDecision.NormalizeIsNormal | src/auditor/intake.py:300-324 | and leaves no empty row, no discovery-only framework and none twice |
| ScopeDecision.UnstrippedLandsTwice | src/auditor/intake.py:1009-1033 | an id with white space at its end can end up on both sides |
| ScopeDecision.HostlessPairLosesIds | src/auditor/intake.py:1022-1028 | a pair without a host drops an id from a row without one and never keeps it |
| ScopeDecision.TwoFaultsCancel | src/auditor/intake.py:1022-1028 | where both faults meet in one row the sides can come out right by accident |
| ScopeDecision.ResolveScopeDecision | src/auditor/intake.py:217-286 | every clear answer gives a normal plan, and exactly the unclear ones give none |
| ScopeDecision.ApplyScopeExclusions | src/auditor/intake.py:1009-1033 | the exclusion loop |
| ScopeDecision.FilterScopeFrameworkIds | src/auditor/intake.py:300-313 | the filter loop leaves normal ids |
| ScopeSelection.ExcludedAreGone | src/auditor/intake.py:1009-1033 | excluding leaves no framework selected for every host or for its own host, under id or address, and no discovery-only one |
| ScopeSelection.OthersStay | src/auditor/intake.py:1009-1033 | and every other |
| ScopeSelection.IncludedAreNamed | src/auditor/intake.py:239-286 | including leaves only what was selected |
| ScopeSelection.NamedStay | src/auditor/intake.py:239-286 | and all of it |
| ScopeSelection.ConfirmedAreAuditable | src/auditor/intake.py:300-324 | confirming leaves no blank and no discovery-only framework |
| ScopeSelection.AuditableStay | src/auditor/intake.py:300-324 | and every other |
| Compliance.TallyCounts | src/auditor/compliance.py:281-303 | every counter counts its rows, unknown statuses as failed, and the total is the sum of the five |
| Compliance.BucketsSumToOverall | src/auditor/compliance.py:344-358 | the buckets' counters add up to the overall ones |
| Compliance.PercentInRange | src/auditor/compliance.py:245-263 | every percentage, exact or rounded, is within 0..100 |
| Compliance.OverallIsBetween | src/auditor/compliance.py:344-358 | the overall percentage lies between the smallest and largest of the buckets with something assessed, exactly and after rounding |
| Compliance.RoundingIsMonotone | src/auditor/compliance.py:245-263 | rounding to tenths keeps order |
| Compliance.CountersAreStatuses | src/auditor/compliance.py:281-303 | each counter is the number of rows with its status as written, and every status outside the four known ones counts as failed |
| Compliance.ExactIsShare | src/auditor/compliance.py:245-263 | the percentage is passed plus half of partial, as a share of what was not skipped |
| Compliance.RoundedIsNearest | src/auditor/compliance.py:245-263 | rounding goes to a nearest tenth, and of two to the even one |
| ComplianceReport.ComplianceBySeverity | src/auditor/compliance.py:266-341 | one entry per severity, known ones in their fixed order, others alphabetically behind, each with its counters and percentage |
| ComplianceReport.OverallCompliance | src/auditor/compliance.py:344-358 | the roll-up over all rows, zero without rows |
| ComplianceReport.StatsMeetOverall | src/auditor/compliance.py:266-358 | the listed entries are balanced, add up to the roll-up and bound its percentage |
| ComplianceReport.SeverityOrder | src/auditor/compliance.py:266-341 | Critical, High, Medium, Low, Info and Unknown come in this order, all others alphabetically behind |
| ResultStore.PutKeepsOk | src/auditor/result_store.py:39-72 | a put keeps the two indexes inverse and every id's key, and stores exactly if id and key are both new or belong together |
| ResultStore.HistoriesKeepOk | src/auditor/result_store.py:39-75 | after any calls, raising part-way or not, the indexes are mutual inverses |
| ResultStore.IdsKeepTheirKeys | src/auditor/result_store.py:39-75 | no id ever changes its logical key |
| ResultStore.FirstRejectedIs | src/auditor/result_store.py:74-75 | everything before the first rejected finding is accepted |
| ResultStore.IdentityIs | src/auditor/result_store.py:39-72 | an identity is complete when none of its parts is blank, and two results share the logical key exactly when client, run, asset, framework, version and requirement agree, outer white space aside |
| ResultStore.Store.PutOne | src/auditor/result_store.py:39-72 | a rejected finding changes nothing |
| ResultStore.Store.PutMany | src/auditor/result_store.py:74-75 | exactly the findings before the first rejected one are kept |

## Left out

- MarkerHide.RunsKeepTexts: page writes are neither empty nor equal to the hider's last write; what becomes of others is `MarkerHide.UnseenWriteIsLost`.
- MarkerHide.TickShowsProse: a node that leaves is forgotten; that one may rejoin the page with its old stash entry, wrapping instead of blanking (no caller asks for it) and the other embeds of a message are not modelled.
- Reconcile.MergeExtension: trees have no script elements, which append nothing and shift positions.
- DetailStrip.StripPrinted: text between tags has no `<details` and no `</details>`, attributes have neither and no `>`.
- Restoring.RoundTrip: the spans that e-mail, address and host patterns match are given, not computed, and kinds are given in upper case. Bare domains are matched in any case but restored in lower case, so the round trip is stated for lower-case ones; kinds with digits, like `IPV4`, are covered as far as their tokens cannot share characters.
- Ambiguity.SeparatedIsExact: that the condition is needed is stated for values of one character that no token contains; longer values may make two readings of a text agree by accident.
- AnonymizerObject.ReversibleAnonymizer.AnonymizeText: takes its passes in order; sorting literals by length is not modelled, because the round trip holds for every order.
- Literals.LiteralsAreGone: said when no match touches a placed token and the literal shares no character with any token of the result; a literal like `USER` occurs again in tokens.
- AuditParser.ParseAudit: digits, word characters and lower case are those of ASCII.
- AuditText.PrintedControlsAreFound: printed controls have at most one command, as item blocks have, and no white space at the ends of their fields.
- EvidenceNumbers.RunsNeverReuse: one store is open at a time, ids are safe as path segments and the counter key is the folder; several open stores are `EvidenceShared.TurnsKeepOrder`.
- EvidenceNames.SeqOfName: digits in file names are those of ASCII.
- Rebinding.RunFolder.RebindRunId: does not model a name that is a file in one tree and a folder in the other, where the file system decides; neither folder lies inside the other (`Beside`), where moving the items would stop part-way; a manifest that reads as one is a value, not JSON.
- Registry.SequencesKeepOk: each call is one step; interleaved calls are `Registry.StepsStayInOrder`. New job ids are new, and time stamps, threads and errors of jobs are not modelled.
- RuntimeLifecycle.StepKeepsOk: deadlines are answers that may fail at any time; what the graph and pool do inside their own shutdown is not modelled.
- PlanMarkdown.PlanRoundTrip: plans without error texts, with hosts distinct in any case, non-empty lists of ids without separators, and without bars in hosts and names. That the condition on names is needed is said of names without a line that begins like a bullet (`PlanInputs.BulletInNameReadsBack`).
- AuditText.FileRoundTrip: that its condition is needed is said of the lines (`AuditText.FileLinesAreFound`), since a broken plain line may happen to define nothing.
- PlanTables.TableIsRead: cells hold no bars, and the first and the last cell of a row are not squeezed to nothing between their bars (the source strips outer bars together, which shifts such rows).
- ScopeSelection.OthersStay: framework ids have no white space at their ends; for all other plans `ScopeDecision.DecisionsSplitThePlan` says what happens.
- ScopePlan.ParsedIsClean: lower case is that of Latin and Russian letters.
- ScopeDecision.DecisionsSplitThePlan: that the condition is sufficient holds always; that it is needed, unless a row without a host meets both a pair without a host and an id that is not stripped (`ScopeDecision.TwoFaultsCancel`). Selectors are given in lower case.
- Compliance.OverallIsBetween: percentages are exact numbers, not floating point; rounding takes the even tenth of two.
- ResultStore.Store.PutOne: results carry their identity as flat fields; merging whole maps is not modelled.
- Browser, themes, downloads, scripts and style re-inflation in the visualizer: no part of these models.
- SQLite, the file system, JSON, archives and office files: maps and trees stand for them.
- Model calls, prompts, remote probes, the command line, installers and HTTP: plumbing around the modelled parts.
- The two chart copies for Open WebUI, credential overlays, catalogue checks and the client and asset registries: they would add easy members only.
