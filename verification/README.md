# ScratchBird tools: a verified model

ScratchBird ships a set of Python tools that decide whether a release may be claimed: gates that scan C++ sources,
generators of manifests and opcode registries, summarizers of traces, and the layout engine that draws the
documentation's diagrams. This project models the parts of those tools that carry real logic and proves what they
promise, for every input.

- **Source masking** (`Sanitizer`, `SanitizerProperties`, `SanitizerGrammar`). Comments, strings and raw strings are
  blanked while a comment or raw string is carried from line to line. Two tools hold two implementations, one going
  character by character and one jumping from token to token; they are proved equal. Masking is also tied to a grammar
  of lexemes that is written without the scanner and names its own delimiters, and the raw-delimiter cap is that of section [lex.string] of
  ISO/IEC 14882.
- **Allowlist** (`Allowlist`). An entry must match exactly one live violation, so the allowlist pins the violation set.
- **Diagrams** (`Relaxation`, `Placement`, `FlowDiagram`, `DiagramLayout`). Parsed statements register nodes and edges;
  depths are relaxed in place under a budget of rounds; boxes are placed layer by layer.
- **Sync traces** (`SyncTrace`, `SyncTraceProperties`, `SyncTraceGrammar`, `SyncTraceMeaning`). Interleaved unfinished
  and resumed records of many processes are reassembled and grouped.
- **Phase traces** (`PhaseTrace`, `PhaseTraceRoundTrip`, `PhaseTraceCounts`, `PhaseTraceOrder`, `PhaseTraceMeaning`,
  `Statistics`). Tab-separated records are parsed, grouped and summarized with nearest-rank percentiles.
- **Index readiness** (`IndexFamilies`, `IndexManifest`, `IndexManifestMeaning`, `Fingerprint`). A manifest is generated
  from a tracker and the index registry and then judged by the generator's own validator; its inputs are fingerprinted.
- **Smaller tools** (`Opcodes`, `EvidenceMerge`, `AuthorityScan`, `AuthorityScanMeaning`, `RequirementMaps`,
  `MatrixFinalizer`).

`Text`, `Ordering`, `Tally` and `Lists` hold what several modules share. Loops of the source are methods with
invariants, proved equal to a function of their input or proved to have the promised property outright; objects that the
source updates in place (a parsed diagram, an evidence record) are classes. Fractions and durations are exact.

A function that a loop is proved equal to is in turn characterised without itself: the `...Meaning` modules and the
lemmas named `...Are`, `...Is`, `...Iff` and `...Means` say what it gives in terms of the input's own fields, with the
source's constants written out.

## Where the code does less than its promise

- A complete sync record may be split into an unfinished and a resumed one without changing the summary, but it is not
  true that *any* other record of that process in between makes the trace refused. One record always does
  (`SyncTraceGrammar.InterruptedRefused`), but any call that is accepted whole is also accepted as the trace of its
  unfinished part, resumed part, unfinished part and resumed part (`SyncTraceGrammar.SeparatedAccepted`).
  `SyncTraceGrammar.SeparatedSplit` says exactly which records may stand in between.
- The authority scan joins the window of lines with blanks before it looks for negation markers, so a two-word marker
  also counts when its first word ends one non-blank line and its second starts the next.
  `AuthorityScan.BrokenMarkerHides` gives an input on which a suspicious line goes unreported although no line holds a
  marker; `AuthorityScan.FlagsIff` and `AuthorityScan.ReportedIff` say exactly when a line is reported.
- Opcode numbers are not always distinct: two names that pass the name test and not the family test share a code
  (`Opcodes.SharedCode` gives two such names). They are distinct exactly under the condition of `Opcodes.DistinctIff`,
  which does not need the two tests to agree; `Opcodes.DistinctWhenTestsAgree` specialises it to the case where they do.
- A repeated artifact id can hide an unavailable artifact from the requirement check
  (`RequirementMaps.RepeatedIdHides`). The check agrees with a direct scan of the rows, whatever is available, iff every
  row that names a complete owner is the last of its id (`RequirementMaps.AgreeIff`). The hiding is local to this check:
  the gate reports a repeated id by itself, where it indexes the artifact rows
  (project/tools/consolidated_enterprise_proof_gate.py:437).
- A merge does not clean up a record: an item repeated in it stays repeated, as often as before, through any number of
  merges (`EvidenceMerge.MergeAllCounts`, `EvidenceMerge.RepetitionsStay`).
- A manifest generated before CEIC-042 is complete need not satisfy the validator
  (`IndexManifest.EarlyManifestIsRefused` gives such inputs): the integrated slices must be complete as well
  (`IndexManifest.GeneratedIsValidIff`).

## Model

| member | source | states |
|---|---|---|
| Sanitizer.SkipQuoted | project/tools/ceic_memory_source_gate.py:262-277 | The inner loop stops just past the first unescaped closing quote, or at the end of the line. |
| Sanitizer.TakeTurn | project/tools/ceic_memory_invariant_gate.py:112-166 | One turn of the loop: from the two carried variables, which are never both set, it takes the one branch that applies, including the fall-through of `R"` with no `(` or with a delimiter over 16 characters. |
| Sanitizer.MaskLineByCharacter | project/tools/ceic_memory_invariant_gate.py:104-168 | The character loop computes the mask of a line and the state after it. |
| Sanitizer.MaskLineByToken | project/tools/ceic_memory_source_gate.py:205-283 | The token-jumping loop computes its own mask, in which text up to the leftmost token is copied in one piece. |
| Sanitizer.SanitizeByCharacter | project/tools/ceic_memory_invariant_gate.py:104-168 | The loop over lines gives the character form's lines and the state carried after each. |
| Sanitizer.SanitizeByToken | project/tools/ceic_memory_source_gate.py:205-283 | The token-jumping tool gives the very lines and carried states of the character-by-character one. |
| Sanitizer.NextToken | project/tools/ceic_memory_source_gate.py:236-242 | The search finds a token, and none lies before it. |
| Sanitizer.CharMaskSkips | project/tools/ceic_memory_invariant_gate.py:104-168 | On a stretch without tokens the character form copies every character and stays in normal state. |
| Sanitizer.FormsAgreeOnText | project/tools/ceic_memory_source_gate.py:205-283 | On one line, from any carried state, both forms give the same text and the same next state. |
| Sanitizer.FormsAgree | project/tools/ceic_memory_source_gate.py:205-283 | On every list of lines, from any state, both forms give the same lines and the same state after each line. |
| Sanitizer.CharSanitizeAppend | project/tools/ceic_memory_invariant_gate.py:104-168 | Sanitizing may be cut between any two lines: the second part continues from the carried state. |
| SanitizerProperties.MaskKeepsPositions | project/tools/ceic_memory_invariant_gate.py:104-168 | A masked line has the length of the original, and each character is the original one or a blank. |
| SanitizerProperties.MaskIsClean | project/tools/ceic_memory_invariant_gate.py:104-168 | No quote, `//` or `/*` survives anywhere in a masked line, whatever state it starts in. |
| SanitizerProperties.CleanIsFixed | project/tools/ceic_memory_invariant_gate.py:104-168 | A line without quotes and comment openers is left as it is and opens nothing. |
| SanitizerProperties.SanitizeMasks | project/tools/ceic_memory_source_gate.py:205-283 | Over a whole file every line is masked in place and comes out clean. |
| SanitizerProperties.SanitizeIdempotent | project/tools/ceic_memory_source_gate.py:205-283 | Sanitizing twice equals sanitizing once. |
| SanitizerProperties.CarriedStatesSound | project/tools/ceic_memory_source_gate.py:253-261 | A raw string carried over a line end always has a closer of the form `)`, delimiter of at most 16 characters, quote. |
| SanitizerGrammar.MaskOfLexing | project/tools/ceic_memory_invariant_gate.py:104-168 | Writing down any well-formed sequence of lexemes, with their quotes, comment and raw-string delimiters written out, and masking the text shows exactly the plain characters at their places, blanks elsewhere, and ends in the state the lexemes leave open. |
| SanitizerGrammar.QuotedLengthOf | project/tools/ceic_memory_invariant_gate.py:149-164 | The quoted-literal loop takes exactly a literal written from plain and escaped characters, closed or cut off by the line end. |
| SanitizerGrammar.FitsTurn | project/tools/ceic_memory_invariant_gate.py:112-166 | A lexeme that may stand at the front of a line is what one turn of the loop takes. |
| SanitizerGrammar.LexingExists | project/tools/ceic_memory_invariant_gate.py:104-168 | Every line, from every state the tool can be in, is the text of a well-formed sequence of lexemes, so the grammar covers all inputs. |
| SanitizerGrammar.BlockCloses | project/tools/ceic_memory_invariant_gate.py:122-131 | An open comment is blanked through the first `*/` and no further, and the rest of the line is read as code. |
| SanitizerGrammar.BlockStaysOpen | project/tools/ceic_memory_invariant_gate.py:122-131 | A line without `*/` is blanked whole and leaves the comment open. |
| Allowlist.ValidateEntry | project/tools/ceic_memory_source_gate.py:438-484 | Validating an entry reports its errors in order; it matches exactly the violations whose category and path are the stripped ones of the entry and whose snippet is some text, the stripped pattern and some text, and none when a field is blank; it has no error iff the entry is admissible and points at exactly one violation. |
| Allowlist.MatchIff | project/tools/ceic_memory_source_gate.py:466-470 | An entry matches a violation iff their stripped category and path agree and the stripped pattern stands in the snippet. |
| Allowlist.AdmissibleIff | project/tools/ceic_memory_source_gate.py:444-464 | An entry draws no error by itself iff its four fields are not blank, the category is known, the path is relative, without `..` part and glob character and exists, the reason has at least 8 words, and the pattern at least 12 characters and is not a broad one. |
| Allowlist.WordsCounted | project/tools/ceic_memory_source_gate.py:461 | The words of a reason are counted once each, where they start. |
| Allowlist.ApplyAllowlist | project/tools/ceic_memory_source_gate.py:487-511 | Errors come entry by entry, a repeated key being reported instead of validated, and what remains is the violations no entry matched, in order. |
| Allowlist.NoErrorsIff | project/tools/ceic_memory_source_gate.py:487-511 | The whole allowlist is free of errors iff its keys are distinct and every entry is sound. |
| Allowlist.AllowedWhenSound | project/tools/ceic_memory_source_gate.py:487-511 | When the allowlist is sound, the allowed violations are exactly those some entry covers. |
| Allowlist.AllowedAre | project/tools/ceic_memory_source_gate.py:487-511 | Sound or not: a violation is allowed iff an entry that repeats no earlier key and has all its fields points at it. |
| Allowlist.RemainingInOrder | project/tools/ceic_memory_source_gate.py:510-511 | What remains is exactly the violations not allowed, in their order. |
| Allowlist.NothingRemains | project/tools/ceic_memory_source_gate.py:510-511 | Nothing remains iff every violation is allowed. |
| Allowlist.PassesIff | project/tools/ceic_memory_source_gate.py:523-540 | The gate passes iff no two entries aim at the same category, path and pattern, every entry is admissible and its pattern stands in the snippet of exactly one violation of its category and path, and every violation is so pointed at. |
| Allowlist.PassingSetsAreIncomparable | project/tools/ceic_memory_source_gate.py:438-511 | Of two violation sets that pass with one allowlist, neither is a strict subset of the other. |
| Allowlist.NewViolationFails | project/tools/ceic_memory_source_gate.py:438-511 | Adding a new distinct violation to a passing run fails it. |
| Allowlist.GoneViolationFails | project/tools/ceic_memory_source_gate.py:438-511 | Losing any violation of a passing run fails it. |
| Relaxation.RelaxRound | docs/documentation/draft/tools_gen_svg_from_mermaid.py:186-189 | One pass in place over the edges in order, each relaxed on what the ones before it left: depths only grow, by no more than the number of edges; each is still the length of a walk; every edge's target is beyond its source's earlier depth; `changed` tells whether anything moved. |
| Relaxation.Relax | docs/documentation/draft/tools_gen_svg_from_mermaid.py:183-190 | Within n + 1 rounds it breaks iff the known nodes form no cycle; a node not fed by a cycle gets its longest-path length, below n; one fed by a cycle gets at least n; no depth exceeds rounds times the number of edges. Rounds go on exactly as long as they change something and the budget of n + 1 lasts, from depths 0. |
| Relaxation.PassCarries | docs/documentation/draft/tools_gen_svg_from_mermaid.py:186-189 | Depths carry over within one pass: an edge starting where an earlier one ended counts both. |
| Relaxation.RoundCovers | docs/documentation/draft/tools_gen_svg_from_mermaid.py:185-190 | After r rounds every depth is at least the length of every walk into the node of at most r edges. |
| Relaxation.SettledAcyclic | docs/documentation/draft/tools_gen_svg_from_mermaid.py:185-190 | A round without change proves there is no cycle. |
| Relaxation.DeepIsFed | docs/documentation/draft/tools_gen_svg_from_mermaid.py:185-190 | A depth of n or more means a cycle leads into the node. |
| Relaxation.FedIsDeep | docs/documentation/draft/tools_gen_svg_from_mermaid.py:185-190 | After the whole budget a node fed by a cycle has depth at least n. |
| Relaxation.UnfedIsLongest | docs/documentation/draft/tools_gen_svg_from_mermaid.py:185-190 | A node no cycle leads to has exactly its longest-path length. |
| Relaxation.BudgetSpent | docs/documentation/draft/tools_gen_svg_from_mermaid.py:185-190 | A change in round n + 1 proves there is a cycle. |
| Relaxation.Pigeonhole | docs/documentation/draft/tools_gen_svg_from_mermaid.py:185-190 | A walk with more nodes than there are repeats one, which is why n rounds suffice. |
| Placement.BuildLayers | docs/documentation/draft/tools_gen_svg_from_mermaid.py:191-192 | Each layer holds the nodes of its depth in registration order, and an absent layer is empty. |
| Placement.DeepestLayer | docs/documentation/draft/tools_gen_svg_from_mermaid.py:199 | The greatest depth in use, or 0 when nothing is registered. |
| Placement.PlaceLayer | docs/documentation/draft/tools_gen_svg_from_mermaid.py:204-210 | The inner loop puts one layer's nodes at their places and moves no node placed before. |
| Placement.PlaceLayers | docs/documentation/draft/tools_gen_svg_from_mermaid.py:201-219 | The outer loop places the nodes of every layer, empty layers included. |
| Placement.LayerMembers | docs/documentation/draft/tools_gen_svg_from_mermaid.py:191-192 | A node is in a layer iff it is registered and has that depth. |
| Placement.LayersApart | docs/documentation/draft/tools_gen_svg_from_mermaid.py:201-219 | Any two layers lie at least the gap apart. |
| Placement.MembersApart | docs/documentation/draft/tools_gen_svg_from_mermaid.py:204-210 | Any two nodes of a layer lie at least the cross gap apart. |
| Placement.SpotBounds | docs/documentation/draft/tools_gen_svg_from_mermaid.py:201-219 | Every placed node keeps the margin and stays inside the band of its layer. |
| Placement.AllApart | docs/documentation/draft/tools_gen_svg_from_mermaid.py:201-219 | Any two placed nodes are apart along one axis. |
| Placement.FarthestIsWhole | docs/documentation/draft/tools_gen_svg_from_mermaid.py:220-221 | Although boxes are centred at half units, the farthest edge is a whole number. |
| Placement.BandIs | docs/documentation/draft/tools_gen_svg_from_mermaid.py:201-219 | The first layer starts at 24, and each next one a gap after the thickest node of the layer before. |
| Placement.SpotIs | docs/documentation/draft/tools_gen_svg_from_mermaid.py:201-219 | Along its axis a node is centred in its layer; across, it follows the nodes registered before it with its depth, each with one cross gap, from 24 on. |
| FlowDiagram.Diagram.constructor | docs/documentation/draft/tools_gen_svg_from_mermaid.py:104 | A new diagram has no nodes and no edges. |
| FlowDiagram.Diagram.Register | docs/documentation/draft/tools_gen_svg_from_mermaid.py:105-110 | After every registration the order lists each id once by first mention, a node's label is the last one given (else its id), its shape the last one not a rectangle, and edges join registered nodes. |
| FlowDiagram.Diagram.Accept | docs/documentation/draft/tools_gen_svg_from_mermaid.py:150-171 | A statement registers all its mentions before it adds edges, so the invariant holds after each statement; edges join every node of a group to every node of the next. |
| FlowDiagram.Diagram.AddEdges | docs/documentation/draft/tools_gen_svg_from_mermaid.py:155-159 | The triple loop adds the caption's edge for every pair of neighbouring groups, in order. |
| FlowDiagram.Diagram.Parse | docs/documentation/draft/tools_gen_svg_from_mermaid.py:101-175 | A whole source leaves a valid diagram whose registrations and edges are those of its statements; labels are kept, and in state diagrams exactly the remaining rectangles other than the start node become round. |
| FlowDiagram.RegisterFollows | docs/documentation/draft/tools_gen_svg_from_mermaid.py:105-110 | Both branches of a registration keep nodes and order in step with the list of mentions. |
| FlowDiagram.FirstsCover | docs/documentation/draft/tools_gen_svg_from_mermaid.py:105-110 | Every mentioned id is in the order list. |
| FlowDiagram.MentionRegistered | docs/documentation/draft/tools_gen_svg_from_mermaid.py:150-154 | Every mention of every group is registered as it is, the start node of a state diagram in its own shape and without a label. |
| FlowDiagram.StatementEdgesAre | docs/documentation/draft/tools_gen_svg_from_mermaid.py:155-159 | A statement has exactly the edges from each member of a group to each member of the next group, under the caption between the two. |
| FlowDiagram.PairAtIndex | docs/documentation/draft/tools_gen_svg_from_mermaid.py:155-159 | Between two groups the edges come source by source, and for each source in the order of the targets. |
| FlowDiagram.GroupsAdd | docs/documentation/draft/tools_gen_svg_from_mermaid.py:155-159 | Edges between earlier groups of a statement come before those between later ones. |
| FlowDiagram.AllEdgesAre | docs/documentation/draft/tools_gen_svg_from_mermaid.py:150-171 | The edges of a source are those of its edge statements. |
| FlowDiagram.StatementsAdd | docs/documentation/draft/tools_gen_svg_from_mermaid.py:150-171 | Later statements add registrations and edges behind those of the earlier ones and change none of them. |
| FlowDiagram.RegistrationsAre | docs/documentation/draft/tools_gen_svg_from_mermaid.py:150-171 | What each kind of statement registers: members of groups, states with their text in round shape, nodes as written, and the start node in its own shape without a label. |
| FlowDiagram.LastTextIs | docs/documentation/draft/tools_gen_svg_from_mermaid.py:105-110 | A node's label is that of its last labelled mention. |
| FlowDiagram.NeverLabelled | docs/documentation/draft/tools_gen_svg_from_mermaid.py:105-110 | A node that is never labelled is labelled with its id. |
| FlowDiagram.LastShapeIs | docs/documentation/draft/tools_gen_svg_from_mermaid.py:105-110 | A node's shape is that of its last mention that is not a rectangle. |
| FlowDiagram.NeverShaped | docs/documentation/draft/tools_gen_svg_from_mermaid.py:105-110 | A node mentioned only as a rectangle is one. |
| FlowDiagram.FirstsGrow | docs/documentation/draft/tools_gen_svg_from_mermaid.py:105-110 | Ids mentioned earlier stand earlier in the order, which holds mentioned ids only. |
| DiagramLayout.LineFits | docs/documentation/draft/tools_gen_svg_from_mermaid.py:26-28 | Every line of a label fits in its node's width with the padding, up to one unit lost by truncation. |
| DiagramLayout.WidthIs | docs/documentation/draft/tools_gen_svg_from_mermaid.py:26-28 | A width is 70 or the truncated need of the longest line at 7.2 a character with 32 of padding. |
| DiagramLayout.HeightIs | docs/documentation/draft/tools_gen_svg_from_mermaid.py:29-30 | A height is 34 or 17 for each line and 16 more, whichever is greater. |
| DiagramLayout.FarEdge | docs/documentation/draft/tools_gen_svg_from_mermaid.py:220-221 | The far edge of the boxes: attained and never exceeded, or 100 when there are none. |
| DiagramLayout.LayeredLayout | docs/documentation/draft/tools_gen_svg_from_mermaid.py:177-222 | In both orientations every node gets one box of its size, centred in the layer of its relaxed depth behind the nodes registered before it, columns 60 and rows 34 apart; boxes are pairwise disjoint with a gap and lie inside the canvas with the margin of 24 on all sides, which is no larger than needed on its far sides; if there is no cycle every edge points forward across at least the gap. |
| DiagramLayout.LayoutIsGood | docs/documentation/draft/tools_gen_svg_from_mermaid.py:201-222 | The same for any assignment of depths, in both orientations. |
| DiagramLayout.LayoutIsTight | docs/documentation/draft/tools_gen_svg_from_mermaid.py:220-221 | On each far side of the canvas some box touches the margin; without nodes the canvas is 124 by 124. |
| DiagramLayout.ForwardWhenSettled | docs/documentation/draft/tools_gen_svg_from_mermaid.py:185-219 | With settled depths every edge leads to a later layer. |
| DiagramLayout.LayOut | docs/documentation/draft/tools_gen_svg_from_mermaid.py:101-222 | From statements to boxes: parsing gives the layout what it needs, so the layout is good for every source, columns are used exactly for the directions LR and RL, the boxes are sized for the labels and shapes parsed and placed by their depths, and without a cycle every edge joins two boxes and points forward, so of each statement's own groups every member lies before every member of the next. |
| SyncTrace.ReadRecord | project/tools/transaction_sync_summary.py:35-54 | The branches for one record: an unfinished call is kept, a resumed one is joined to its start, anything else must come with nothing pending; the error cases are refusals. |
| SyncTrace.Summarize | project/tools/transaction_sync_summary.py:22-75 | The single loop, refusing at the first bad line, gives the summary of the list of calls read, which `SyncTraceMeaning.ReportMeans` describes; unfinished or empty traces are refused. |
| SyncTrace.ListGroups | project/tools/transaction_sync_summary.py:70 | The report lists each group once, ordered by call, path and result. |
| Ordering.StringLeqIs | project/tools/transaction_sync_summary.py:70 | Texts are ordered as Python orders them: a prefix comes first, otherwise the first different character decides. |
| SyncTraceProperties.RunGivesLane | project/tools/transaction_sync_summary.py:26-50 | In a run over interleaved records each process sees only its own: its pending call and its calls are those of its records alone. |
| SyncTraceProperties.LanesGiveRun | project/tools/transaction_sync_summary.py:26-50 | If every process's own records are readable, so is the interleaving. |
| SyncTraceProperties.GroupsOfPermutation | project/tools/transaction_sync_summary.py:56-64 | The groups do not depend on the order of the calls. |
| SyncTraceProperties.GroupDurations | project/tools/transaction_sync_summary.py:61-64 | A group's sum is the sum of the durations counted for its key, and its maximum is the least bound on them that is at least 0. |
| SyncTraceProperties.ReportTotals | project/tools/transaction_sync_summary.py:65-70 | On acceptance the call and failure counts are the sums over the groups, there is at least one call and none is pending. |
| SyncTraceProperties.SameLaneRuns | project/tools/transaction_sync_summary.py:22-75 | Traces whose processes behave alike, one by one, have the same summary. |
| SyncTraceProperties.InterleavingInvariant | project/tools/transaction_sync_summary.py:22-75 | Traces with the same records per process, interleaved in any way, are both refused or give the same report. |
| SyncTraceGrammar.LaneOkRuns | project/tools/transaction_sync_summary.py:35-54 | One process's records run through with nothing pending iff they are complete calls and adjacent unfinished/resumed pairs. |
| SyncTraceGrammar.AcceptedIff | project/tools/transaction_sync_summary.py:22-75 | A trace is accepted iff it has records, no bad line, and every process's records are of that form. |
| SyncTraceGrammar.LaneOkLocally | project/tools/transaction_sync_summary.py:35-54 | That form can be checked record by record from each record's neighbours. |
| SyncTraceGrammar.SplitInLane | project/tools/transaction_sync_summary.py:35-50 | In one process a complete record and its split into two behave alike, from any pending state. |
| SyncTraceGrammar.SplitCall | project/tools/transaction_sync_summary.py:35-50 | Splitting any complete record into an unfinished and a resumed part, with any records of other processes in between, never changes the summary. |
| SyncTraceGrammar.InterruptedRefused | project/tools/transaction_sync_summary.py:35-50 | With exactly one record of that process in between, the trace is refused. |
| SyncTraceGrammar.LaneOkAppend | project/tools/transaction_sync_summary.py:35-50 | One process's records may be cut before any record that does not resume a call: the whole is in order iff both parts are. |
| SyncTraceGrammar.SeparatedPair | project/tools/transaction_sync_summary.py:35-50 | Two halves with records of their process in between are in order iff what is before and after is, the first record in between resumes the first half, the last starts the call the second half resumes, and the rest are in order. |
| SyncTraceGrammar.SeparatedSplit | project/tools/transaction_sync_summary.py:22-75 | When a whole call of an accepted trace is split around records of its own process, the trace is still accepted iff those records are such a bridge, no line put in is bad and the other processes stay in order. |
| SyncTraceGrammar.SeparatedAccepted | project/tools/transaction_sync_summary.py:22-75 | Every call that is accepted whole is accepted as the trace unfinished, resumed, unfinished, resumed, so "any other record in between refuses" is false. |
| SyncTraceMeaning.ClassifyIs | project/tools/transaction_sync_summary.py:35-44 | A record is unfinished iff it ends in ` <unfinished ...>`, resumed iff it does not and starts with `<... fsync resumed>` or `<... fdatasync resumed>`, and the start and tail are the rest of its text. |
| SyncTraceMeaning.LaneCallsRead | project/tools/transaction_sync_summary.py:35-54 | Of a process's records in order, each whole call and each unfinished/resumed pair gives one call, and nothing else does. |
| SyncTraceMeaning.GroupMeans | project/tools/transaction_sync_summary.py:56-64 | The group of a call name, path and result exists iff some call has all three; it counts exactly those calls, sums their durations and has their greatest. |
| SyncTraceMeaning.FailuresAre | project/tools/transaction_sync_summary.py:67 | The failures are the calls whose result is not 0. |
| SyncTraceMeaning.KeyLeqIs | project/tools/transaction_sync_summary.py:70 | Groups are ordered by call name, then path, then result. |
| SyncTraceMeaning.ReportMeans | project/tools/transaction_sync_summary.py:22-75 | For every accepted trace: the calls of each process are those of its own records; the two counts are theirs; each name, path and result that occurs has one entry, in order, and the entry gives the number, sum and maximum of exactly the calls with them. |
| Statistics.Rank | project/tools/transaction_phase_summary.py:31-32 | The index is one less than the rounded-up rank, and never negative. |
| Statistics.PercentileIsNearestRank | project/tools/transaction_phase_summary.py:31-32 | A percentile is a sample with at least that fraction of all samples at or below it, and the least such sample. |
| Statistics.OrderedCount | project/tools/transaction_phase_summary.py:27-32 | In an ordered list at least k samples are at or below v iff the k-th is. |
| Statistics.StatisticsOrdered | project/tools/transaction_phase_summary.py:26-39 | Count and sum are those of the samples, min and max are attained bounds, min <= p50 <= p95 <= p99 <= max, and the mean lies between min and max. |
| Statistics.MeanIs | project/tools/transaction_phase_summary.py:34-37 | The mean times the count is the sum of the samples. |
| Statistics.SumAddsUp | project/tools/transaction_phase_summary.py:34 | Sums of parts add up to the sum of the whole. |
| Statistics.StatisticsOfPermutation | project/tools/transaction_phase_summary.py:26-39 | All statistics, and the refusal of an empty list, are unchanged by permuting the samples. |
| PhaseTrace.ParseFields | project/tools/transaction_phase_summary.py:55-60 | The token loop gives the fields in order or fails on a token without `=`, an empty key or value, or a repeated key. |
| PhaseTrace.ParseTimings | project/tools/transaction_phase_summary.py:67-75 | The timing loop gives every `_us` field as a number or stops at the first that is not at most 20 digits or exceeds 64 bits. |
| PhaseTrace.Parse | project/tools/transaction_phase_summary.py:55-75 | One line becomes a record or the error the source would raise first. |
| PhaseTrace.Append | project/tools/transaction_phase_summary.py:76-77 | The record's timings are added at the end of their phases in the record's group. |
| PhaseTrace.Summarize | project/tools/transaction_phase_summary.py:42-99 | The whole loop: unterminated lines, the record limit, malformed records and an empty trace are refused, otherwise the report is that of the records read. |
| PhaseTrace.ReadingStops | project/tools/transaction_phase_summary.py:47-75 | Once a line is refused no later line changes the error. |
| PhaseTrace.ListOperations | project/tools/transaction_phase_summary.py:93-98 | Groups are listed once each in key order, and phases likewise. |
| PhaseTraceRoundTrip.DecimalReadsBack | project/tools/transaction_phase_summary.py:70-72 | A number in canonical decimal is accepted as digits and read back as itself. |
| PhaseTraceRoundTrip.TimingFits | project/tools/transaction_phase_summary.py:70-74 | Every unsigned 64-bit number fits in the 20-digit cap. |
| PhaseTraceRoundTrip.FieldsReadBack | project/tools/transaction_phase_summary.py:55-60 | Printed tokens with distinct keys are read back as the same fields in the same order. |
| PhaseTraceRoundTrip.TimingsReadBack | project/tools/transaction_phase_summary.py:67-75 | Printed timings are read back as the same numbers. |
| PhaseTraceRoundTrip.RecordReadsBack | project/tools/transaction_phase_summary.py:55-75 | A well-formed record printed as a line parses to exactly its meaning. |
| PhaseTraceRoundTrip.FileReadsBack | project/tools/transaction_phase_summary.py:47-77 | Any list of well-formed records within the limit is accepted and read back exactly. |
| PhaseTraceRoundTrip.SummaryOfPrinted | project/tools/transaction_phase_summary.py:42-99 | The report of a printed file counts its records and groups what was printed. |
| PhaseTraceCounts.GroupsHold | project/tools/transaction_phase_summary.py:76-77 | A group's samples of a phase are those of its records, in order. |
| PhaseTraceCounts.GroupsHaveRecords | project/tools/transaction_phase_summary.py:76-77 | A group exists iff some record has its key, and no phase is empty. |
| PhaseTraceCounts.ParsedIsRegular | project/tools/transaction_phase_summary.py:55-75 | Every accepted record has one total and at most one sample of each phase. |
| PhaseTraceCounts.SummaryCounts | project/tools/transaction_phase_summary.py:80-99 | For every accepted trace the groups' record counts sum to the total, and each phase counts between one and its group's number of records. |
| PhaseTraceOrder.ReadIff | project/tools/transaction_phase_summary.py:47-77 | A file is read iff every line is terminated and blank or well formed and the records are within the limit, and it then gives the lines' records in order. |
| PhaseTraceOrder.GroupsOfPermutation | project/tools/transaction_phase_summary.py:76-77 | The same records in any order form the same groups and phases, with the same samples in each. |
| PhaseTraceOrder.ReportOfPermutation | project/tools/transaction_phase_summary.py:42-99 | With its lines in any other order an accepted file gives the very same report, and a refused one is still refused. |
| PhaseTraceMeaning.StripEolIs | project/tools/transaction_phase_summary.py:56 | Line-end characters are taken off the end of a line and nothing else is. |
| PhaseTraceMeaning.MalformedIff | project/tools/transaction_phase_summary.py:55-60 | A line is malformed iff its tab-separated tokens do not spell non-empty keys and values around the first `=`, with no key twice. |
| PhaseTraceMeaning.LineMeans | project/tools/transaction_phase_summary.py:55-75 | What a line that spells fields is read as: refused without operation or boolean outcome, then without `total_us`, then for a bad timing; otherwise the record has the operation, outcome and `_us` values of those fields. |
| PhaseTraceMeaning.BadTimingIs | project/tools/transaction_phase_summary.py:67-75 | The complaint is about the first `_us` field that is not a number of at most 20 digits up to 2^64 - 1: its form, or else its size. |
| PhaseTraceMeaning.LeadingZero | project/tools/transaction_phase_summary.py:72 | Leading zeros do not change a timing. |
| PhaseTraceMeaning.StopIs | project/tools/transaction_phase_summary.py:47-75 | Reading stops at the first line with a complaint, with that complaint and line number. |
| PhaseTraceMeaning.GroupMeans | project/tools/transaction_phase_summary.py:76-77 | The group of an operation and outcome exists iff some record has both, and holds for each phase the values of exactly those records, in file order. |
| PhaseTraceMeaning.GroupLeqIs | project/tools/transaction_phase_summary.py:97 | Groups are ordered by operation and then by outcome. |
| PhaseTraceMeaning.OperationMeans | project/tools/transaction_phase_summary.py:93-98 | An entry has its operation, is ok iff the outcome is `true`, counts its records and gives the statistics of each phase that occurs in them, phases in order. |
| PhaseTraceMeaning.ReportMeans | project/tools/transaction_phase_summary.py:42-99 | For every accepted file: one such entry for each operation and outcome that occurs, in order, and the count of records read. |
| IndexFamilies.RouteDiscipline | project/tools/ceic_index_readiness_manifest.py:786-835 | On every route: candidates and prunes need exact recheck, approximate sources need rerank and fallback, a pruning route produces no candidates, writes keep order, and no route grants row truth or waives a recheck. |
| IndexFamilies.SummaryMatchesFamily | project/tools/ceic_index_readiness_manifest.py:1273-1298 | Folding the routes together gives back exactly what the family is and needs. |
| IndexFamilies.RoutesPartitioned | project/tools/ceic_index_readiness_manifest.py:1274-1279 | Every route is listed as supported or as unsupported, and none as both. |
| IndexFamilies.ClassMeans | project/tools/ceic_index_readiness_manifest.py:838-871 | Which families each semantic class has. |
| IndexFamilies.TraitsFollowClass | project/tools/ceic_index_readiness_manifest.py:705-765 | The family tests that routes and proofs go by are fixed by the semantic class. |
| IndexFamilies.CandidatesFollowClass | project/tools/ceic_index_readiness_manifest.py:725-765 | So are candidates, specialized families, fallback, ranking and equality lookup. |
| IndexFamilies.ProviderFollowsClass | project/tools/ceic_index_readiness_manifest.py:935-964 | A provider is fixed by the semantic class, or by the persistence class where that has one of its own. |
| IndexFamilies.RouteServes | project/tools/ceic_index_readiness_manifest.py:768-783 | Which classes a ready route supports: writes the exact ones, document, graph, vector and search their own, the others every runtime class. |
| IndexFamilies.RouteDoes | project/tools/ceic_index_readiness_manifest.py:786-835 | A supported route does exactly one of reading, writing and building, and reopens and mutates only where the route does. |
| IndexManifest.BuildBlockers | project/tools/ceic_index_readiness_manifest.py:1299-1331 | The loop and the rewriting after it give the blockers of a family in order. |
| IndexManifest.BlockersAre | project/tools/ceic_index_readiness_manifest.py:1299-1331 | A persistent family is held up by exactly the tracked pending ones of CEIC-031, 032, 036, 037, 040, 041 and 042, by CEIC-034 if it is the unique B-tree, 035 if the hash, 039 if specialized, in order, and by the manifest gate iff there are none; a memory-only one by being temporary and by the same but for 031 and 032; a non-runtime one by being one. |
| IndexManifest.ValidateRows | project/tools/ceic_index_readiness_manifest.py:2091-2236 | The validator's loop collects the complaints of all rows in order. |
| IndexManifest.StatesAreGood | project/tools/ceic_index_readiness_manifest.py:986-1229 | When a complete CEIC-042 rests on complete CEIC-037, CEIC-040 and CEIC-041, no family's proof states draw a complaint. |
| IndexManifest.ClassIsGood | project/tools/ceic_index_readiness_manifest.py:874-932 | No family's claims or classification draw a complaint, whatever its routes are. |
| IndexManifest.NonRuntimeIff | project/tools/ceic_index_readiness_manifest.py:2206-2219 | The non-runtime checks are met iff such a family is declared with its own class and not available. |
| IndexManifest.ListedPendingIs | project/tools/ceic_index_readiness_manifest.py:2259-2268 | The pending slices the validator recomputes are the ones the generator listed. |
| IndexManifest.PlanIff | project/tools/ceic_index_readiness_manifest.py:2249-2283 | The slice lists of a generated manifest are accepted iff the integrated slices are complete. |
| IndexManifest.RowIff | project/tools/ceic_index_readiness_manifest.py:1263-1448 | A generated row is accepted iff its family is properly declared. |
| IndexManifest.FamiliesIff | project/tools/ceic_index_readiness_manifest.py:2038-2236 | The generated rows are accepted iff family ids are distinct and all families are properly declared. |
| IndexManifest.HeaderIff | project/tools/ceic_index_readiness_manifest.py:2239-2326 | The rest of a generated manifest is accepted iff the integrated slices are complete. |
| IndexManifest.GeneratedIsValidIff | project/tools/ceic_index_readiness_manifest.py:1809-2025 | Whenever the build succeeds, the validator accepts the manifest iff ids are distinct, families are declared and the integrated slices are complete. |
| IndexManifest.GeneratedIsValidWhenComplete | project/tools/ceic_index_readiness_manifest.py:1661-1731 | With CEIC-042 complete the last condition is implied by the build's own checks, so distinct ids and declared families decide. |
| IndexManifest.EarlyManifestIsRefused | project/tools/ceic_index_readiness_manifest.py:2272-2283 | With CEIC-030 to CEIC-042 pending and every file check met the build succeeds, for any registry, and the validator complains. |
| IndexManifest.GeneratedRowsClaimNoMore | project/tools/ceic_index_readiness_manifest.py:1263-1448 | Whatever registry and tracker: no generated row is ready or without a blocker; a state is complete only if the tracker shows its slices complete, for storage, recovery, benchmark and drift all of CEIC-031 to 042 and CEIC-090 to 095; every route is disciplined and listed once. |
| IndexManifestMeaning.RowStatesAre | project/tools/ceic_index_readiness_manifest.py:986-1229 | Every state of a generated row: blocked for non-runtime families, not applicable where it does not concern the family, and otherwise complete iff the tracker shows the one slice it waits for complete. |
| IndexManifestMeaning.SpecializedStateIs | project/tools/ceic_index_readiness_manifest.py:1378-1396 | The specialized closure is complete iff the family is specialized and CEIC-039 is complete, non-runtime families included. |
| IndexManifestMeaning.RowDescribes | project/tools/ceic_index_readiness_manifest.py:1263-1448 | A row is about its family, with its provider, routes and blockers, is classified by its family, and claims nothing. |
| IndexManifestMeaning.BuiltIff | project/tools/ceic_index_readiness_manifest.py:1809-2025 | A manifest is built iff the plan and sources are in order, CEIC-030 to 042 are tracked, a complete CEIC-040, 041 or 042 has its proofs, and a complete CEIC-042 rests on complete CEIC-031 to 041 and on CEIC-090 to 095 complete and accepted. |
| IndexManifestMeaning.ManifestCarries | project/tools/ceic_index_readiness_manifest.py:1809-2025 | A built manifest has one row per registered family, in order, lists exactly the pending ones of CEIC-031 to 042, and carries its inputs. |
| IndexManifestMeaning.RowAcceptedIff | project/tools/ceic_index_readiness_manifest.py:2091-2236 | Exactly which rows, generated or not, the validator has no complaint about. |
| IndexManifestMeaning.ManifestAcceptedIff | project/tools/ceic_index_readiness_manifest.py:2239-2326 | Exactly which manifests, generated or not, the validator accepts. |
| Fingerprint.DecodeChar | project/tools/ceic_index_readiness_manifest.py:1549 | The first character of an encoded text can be read back whatever follows. |
| Fingerprint.Utf8Injective | project/tools/ceic_index_readiness_manifest.py:1549 | Different paths have different encodings. |
| Fingerprint.FeedDigest | project/tools/ceic_index_readiness_manifest.py:1542-1553 | The loop feeds the digest exactly the stream of the inputs it records, or fails at the first missing file. |
| Fingerprint.CollectInputs | project/tools/ceic_index_readiness_manifest.py:1525-1553 | Paths are taken once each in order, however they were discovered. |
| Fingerprint.CollectedIff | project/tools/ceic_index_readiness_manifest.py:1542-1545 | A collection succeeds iff every discovered path exists. |
| Fingerprint.InputsAre | project/tools/ceic_index_readiness_manifest.py:1546-1548 | Each recorded input is a path with the hash of that path's file. |
| Fingerprint.StreamIs | project/tools/ceic_index_readiness_manifest.py:1549-1552 | Each input adds its path, a NUL, its hash and a NUL, behind what was fed before. |
| Fingerprint.Utf8Shape | project/tools/ceic_index_readiness_manifest.py:1549 | ASCII is encoded as itself, other characters in 2 to 4 bytes of which none is ASCII. |
| Fingerprint.StreamInjective | project/tools/ceic_index_readiness_manifest.py:1549-1552 | Without NUL in paths and hashes, a stream determines its inputs. |
| Fingerprint.FingerprintCanonical | project/tools/ceic_index_readiness_manifest.py:1525-1553 | Two collections that succeed, from paths in any order and with repetitions, give one stream iff they found the same paths with the same hashes. |
| Fingerprint.NulInPathIsAmbiguous | project/tools/ceic_index_readiness_manifest.py:1549-1552 | Why the existence test matters to the stream: a path holding NUL, were it let through, could imitate two inputs. |
| Opcodes.Generate | project/tools/generate_spec_authority_from_artifacts.py:435-485 | Rows keep their order, extras follow in name order without those already present, codes come from the two counters, and the codes are pairwise distinct iff lifecycle-named rows are separated and the general counter stays below them. |
| Opcodes.AddExtra | project/tools/generate_spec_authority_from_artifacts.py:472-485 | The extra names are numbered on from the running counter and change no earlier entry. |
| Opcodes.SeparatedNumbers | project/tools/generate_spec_authority_from_artifacts.py:442-446 | Two lifecycle-named rows get different codes iff a row of the database-management family stands from the first up to the second. |
| Opcodes.DistinctIff | project/tools/generate_spec_authority_from_artifacts.py:435-485 | All codes are distinct iff every two lifecycle-named rows are so separated and the general rows, extras included, fit below each of their codes. |
| Opcodes.SharedCode | project/tools/generate_spec_authority_from_artifacts.py:442-446 | The names LIFECYCLE_A and LIFECYCLE_B, which the family test does not see as lifecycle rows, get one code. |
| Opcodes.Clash | project/tools/generate_spec_authority_from_artifacts.py:442-446 | With one general row too many, some general row gets a lifecycle row's code. |
| Opcodes.DistinctWhenTestsAgree | project/tools/generate_spec_authority_from_artifacts.py:160-180 | When name test and family test agree, codes are distinct iff there is no lifecycle row or at most 0x400 other rows. |
| Opcodes.FamilyIsFirstRule | project/tools/generate_spec_authority_from_artifacts.py:160-180 | An operation's family is that of the first rule of the table that its upper-case name meets, and general if it meets none. |
| Opcodes.CodesAre | project/tools/generate_spec_authority_from_artifacts.py:435-485 | A lifecycle-named row has 0x1400 plus the number of database-management rows of those before it; the other rows, and behind them the extra ones, are numbered from 0x1000 without a gap. |
| Opcodes.ExtraFamilyIs | project/tools/generate_spec_authority_from_artifacts.py:478 | An extra name is reference-private iff it holds REFERENCE_TIKV. |
| EvidenceMerge.Record.MergeUniqueList | project/tools/generate_spec_authority_from_artifacts.py:766-775 | The field is replaced by the merged list and no other field of the record changes. |
| EvidenceMerge.MergeIsUnion | project/tools/generate_spec_authority_from_artifacts.py:766-775 | A merge gives an ordered list of exactly the old items and the new non-empty values, duplicate-free iff the old list was. |
| EvidenceMerge.MergeAllIsUnion | project/tools/generate_spec_authority_from_artifacts.py:766-775 | Any sequence of merges into a duplicate-free record lists the union of everything non-empty, once each, in order. |
| EvidenceMerge.OrderAndGroupingDoNotMatter | project/tools/generate_spec_authority_from_artifacts.py:766-775 | Any two ways of ordering and grouping the same values give the same record, whatever the record held before. |
| EvidenceMerge.MergeAllCounts | project/tools/generate_spec_authority_from_artifacts.py:766-775 | After any merges the list is ordered, an item that was there has its old number, and every other non-empty value comes exactly once. |
| EvidenceMerge.RepetitionsStay | project/tools/generate_spec_authority_from_artifacts.py:766-775 | After any merges the list is duplicate-free iff the record was. |
| EvidenceMerge.RepeatedItemStays | project/tools/generate_spec_authority_from_artifacts.py:766-775 | An item already in the record keeps its number through a merge, and a new non-empty value comes exactly once. |
| EvidenceMerge.TextMeansItems | project/tools/generate_spec_authority_from_artifacts.py:766-775 | A text field merges as the list of its items between semicolons, an absent one as no items. |
| EvidenceMerge.NonEmptyIs | project/tools/generate_spec_authority_from_artifacts.py:766-775 | Empty items are dropped and the others kept in order. |
| AuthorityScan.ScanFile | project/tools/consolidated_enterprise_proof_gate.py:377-395 | The loop with its bounded window reports, in order, exactly the lines suspicious against the last eight non-blank lines before them. |
| AuthorityScan.PushKeepsLast | project/tools/consolidated_enterprise_proof_gate.py:377 | A window of eight always holds the last eight lines pushed. |
| AuthorityScan.MarkerInWindow | project/tools/consolidated_enterprise_proof_gate.py:388-389 | A marker is in the joined window iff it is in one line or a two-word marker straddles two neighbouring ones. |
| AuthorityScan.FlagsIff | project/tools/consolidated_enterprise_proof_gate.py:379-393 | A line is flagged iff it has a phrase and a subject and no marker occurs, in that sense, in it and its window. |
| AuthorityScan.ReportedIff | project/tools/consolidated_enterprise_proof_gate.py:377-395 | The same for a line of a file and the last eight non-blank lines before it. |
| AuthorityScan.BrokenMarkerHides | project/tools/consolidated_enterprise_proof_gate.py:388-389 | In a file of two lines, a marker broken over them hides the suspicious second line although neither line holds a marker. |
| AuthorityScan.BlankLinesDoNotMatter | project/tools/consolidated_enterprise_proof_gate.py:377-395 | Removing all blank lines changes nothing in which text lines are reported. |
| AuthorityScan.SameTextSameReport | project/tools/consolidated_enterprise_proof_gate.py:377-395 | Files that differ only in blank lines have the same lines reported. |
| AuthorityScanMeaning.SuspiciousIff | project/tools/consolidated_enterprise_proof_gate.py:43-62 | A line is suspicious iff, with a blank on each side, it holds one of the five phrases and one of the eleven subjects. |
| AuthorityScanMeaning.MarkersAre | project/tools/consolidated_enterprise_proof_gate.py:63-81 | The seventeen negation markers as they are looked for. |
| AuthorityScanMeaning.NegatesIff | project/tools/consolidated_enterprise_proof_gate.py:388-389 | A marker counts iff a line holds it between blanks, or a line ends in its first word and the next starts with its second. |
| AuthorityScanMeaning.TextsAre | project/tools/consolidated_enterprise_proof_gate.py:377-395 | The lines looked at are the lowered ones that are not blank, in order. |
| AuthorityScanMeaning.WindowIs | project/tools/consolidated_enterprise_proof_gate.py:377 | The window is the last eight of them, or all if there are fewer. |
| AuthorityScanMeaning.ReportedMeans | project/tools/consolidated_enterprise_proof_gate.py:377-395 | A line is reported iff it is suspicious and no marker counts in that window with the line. |
| RequirementMaps.BuildIndex | project/tools/consolidated_enterprise_proof_gate.py:246-261 | The inverted index holds, for every owner, exactly the ids of the artifacts naming it. |
| RequirementMaps.BuildArtifacts | project/tools/consolidated_enterprise_proof_gate.py:168-176 | The dictionary by id holds the last row of each non-blank id. |
| RequirementMaps.LastRowIs | project/tools/consolidated_enterprise_proof_gate.py:168-176 | The row that stands for an id is the last one with it. |
| RequirementMaps.CheckOwner | project/tools/consolidated_enterprise_proof_gate.py:278-281 | One owner's loop reports its absent or unavailable artifacts, one error each, in order of their ids. |
| RequirementMaps.ComplaintsAre | project/tools/consolidated_enterprise_proof_gate.py:274-290 | An error is reported iff its owner is complete, its artifact names that owner, and the row that stands for the artifact is missing or unavailable. |
| RequirementMaps.ValidateCompleteRows | project/tools/consolidated_enterprise_proof_gate.py:264-290 | It reports the unmet needs of complete gates and then of complete slices, owner by owner in order of artifact ids; it reports none iff every need is met; where needed rows stand for their ids, as with unique ids they do, it reports none iff a direct scan of the rows finds every artifact naming a complete gate or slice available. |
| RequirementMaps.AgreeIff | project/tools/consolidated_enterprise_proof_gate.py:246-290 | Looking through the maps and scanning the rows agree, whatever is available, iff every row that names a complete owner is the row that stands for its id. |
| RequirementMaps.MetIffScanned | project/tools/consolidated_enterprise_proof_gate.py:246-290 | With unique ids, looking through the inverted maps and scanning the rows agree. |
| RequirementMaps.RepeatedIdHides | project/tools/consolidated_enterprise_proof_gate.py:168-176 | With a repeated id they need not. |
| MatrixFinalizer.ReadFailures | project/drivers/scripts/finalize_driver_native_full_surface_matrix.py:38-46 | Failures come from the failure file when there is one, else from the rows neither passed nor planned. |
| MatrixFinalizer.Finalize | project/drivers/scripts/finalize_driver_native_full_surface_matrix.py:131-171 | The loops over shards give the missing, unexpected, failed and repeated ids and the status. |
| MatrixFinalizer.NothingRepeated | project/drivers/scripts/finalize_driver_native_full_surface_matrix.py:157-162 | No duplicate is recorded iff the passing ids are distinct. |
| MatrixFinalizer.PassIff | project/drivers/scripts/finalize_driver_native_full_surface_matrix.py:166-171 | The status is pass iff the passing ids over all shards are each planned id once and nothing else, and no planned id failed. |
| MatrixFinalizer.ShardingDoesNotMatter | project/drivers/scripts/finalize_driver_native_full_surface_matrix.py:140-171 | Moving rows between shards together with their failures does not change the status. |
| MatrixFinalizer.ShardOrderDoesNotMatter | project/drivers/scripts/finalize_driver_native_full_surface_matrix.py:140-171 | Reordering the shards does not change the status. |
| MatrixFinalizer.IdentifiedBy | project/drivers/scripts/finalize_driver_native_full_surface_matrix.py:49-65 | A row's id is its own, or else its parts around bars, which the id gives back. |
| MatrixFinalizer.VerdictMeans | project/drivers/scripts/finalize_driver_native_full_surface_matrix.py:131-171 | Missing are the planned ids no row passes, unexpected the passed ones not planned, failed the planned ones that fail, repeated those more than one row passes; the status is pass iff there are none of these. |
| MatrixFinalizer.PassMeans | project/drivers/scripts/finalize_driver_native_full_surface_matrix.py:166-171 | The status is pass iff every planned id is passed by exactly one row, every other by none, and no planned one fails. |

## Left out

- File, CSV, JSON, YAML, git and subprocess access: parsed rows, lines, statuses and the outcome of file checks are inputs.
- SHA-256 and UUIDv5: a hash is a parameter, and the facts are about the bytes fed to it.
- Regular expressions: the rule tables of the memory gates and the diagram label and token patterns are not modelled; a diagram source is a list of recognised statements.
- SyncTrace.Summarize: the prefix of a trace line and the syntax of a call are parameters, and lines that do not match are one constructor, because only the order of records matters here.
- Floating point: rounding, infinities and overflow are not modelled; durations and coordinates are exact reals, percentiles are exact hundredths and 7.2 is exact.
- Case folding: lower and upper case are parameters.
- AuthorityScan.BlankLinesDoNotMatter: requires that lower-casing keeps blank text blank, as it does in Python.
- AuthorityScan.SameTextSameReport: has the same requirement.
- Error messages: texts are dropped; the errors are distinguished by constructor, and their number and order is kept where the source's verdict depends on it.
- DiagramLayout.LayeredLayout: the two mirrored placement loops are one pair of loops over the two axes, and the unused successor lists and in-degrees are dropped.
- IndexManifest.GeneratedIsValidIff: rows and manifests are typed, so the checks that a value is a list or an object are not modelled, nor are owners, notes and required-slice lists, which nothing validates; statuses are taken as normalised.
- RequirementMaps.ValidateCompleteRows: reference lists are taken as already split and ids as stripped.
- EvidenceMerge.Record.MergeUniqueList: items of an existing list are strings already.
- SyncTrace.ListGroups and PhaseTrace.ListOperations: the mutable group dictionaries are maps that are reassigned; nothing in the source shares them.
- Report fields that are constant text, and the report's summaries of each shard.
- SVG rendering, sequence diagrams and edge routing: output formatting.
- The flag-by-flag validators of other manifests, the scripts under project/ai, the driver runners and the C++ sources: these would add only easy members.
