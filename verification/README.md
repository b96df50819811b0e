# Ochakai: a verified model of its text surgery, moves, bundles and caches

Ochakai stores knowledge as OKF documents: markdown with YAML frontmatter, kept as
the writer's own bytes. This project models, in Dafny, the parts of the program that
make strong promises about those bytes and about what is derived from them, and proves
the promises, or proves exactly when they hold.

- **Text surgery** (`NormalText`, `DocumentText`, `Frontmatter`, `ServerKeys`, `Claims`,
  `Splice*`, `BlockLaws`, `FrontmatterEdit`): normalising, cutting a document at its fences, taking
  provenance keys out and putting them back, setting and unsetting keys.
- **Links and paths** (`LinkScan` to `LinkLimits`, `RelativeTargets`, `Edits`, `Paths`,
  `PathTokens`, `PathScalars`, `PathMoves`, `PathFollows`, `LogPages`, `LogLinks`, `LogRead`):
  a move never changes what a link or a path field means; the reader and the rewriter of links
  are modelled separately, as they are written, and `LinkFences` says what a fenced block does
  to both.
- **Bundles** (`Bundle*`, `DirTree`, `Import*`): reading a bundle shares out its files,
  the index pages agree with the flat list, and the dry run predicts the concurrent import.
- **Algorithms** (`EditDistance`, `Shards`, `ShardLaws`, `SeedTables`, `Compare`, `Caches`,
  `Access`): each against an independent specification.

`Text` and `Order` hold what the Go standard library does to strings and slices.
Loops and objects that change state are methods and classes here too; what each promises
is stated by a function of its inputs, and the laws are lemmas about that function.
`dafny verify dfyconfig.toml` checks the whole project.

## Where the program and its own comments part

- `MoveServerKeys` reads the claim back by decoding the whole frontmatter. Where a foreign
  value does not decode as it stands, or a key comes twice, the document is stored with its
  owned keys still in it (`Claims.ClaimGoesIn`, `Claims.MoveLeavesNoOwnedKey`), and an export
  of such a document comes home as the export (`Claims.ExportThenWriteBack`). Parsing takes
  timestamps as text and `ClaimOf` does not, so `due: !!timestamp soon` gets that far
  (`Claims.OwnedKeyIsStored`).
- `MoveServerKeys` loses an owned key whose value cannot be decoded when no claim is there
  (`Claims.LostExactlyWhenUnreadable`); of documents that were parsed first nothing is lost
  (`Claims.DecodedDocumentsLoseNothing`).
- `splitFrontmatter` gives an empty frontmatter and body for text that ends in its closing
  fence without a line feed (`DocumentText.CutLosesNothingExactlyWhen`,
  `DocumentText.OpenEndIsLost`); stored text always ends in one (`DocumentText.WrittenOfSplit`).
- Normalising is not idempotent for a text that opens with two byte-order marks
  (`NormalText.NormalizedTwice`).
- A second identical save can change the document (`SpliceSettles.SettlesExactlyWhen`,
  `SpliceLimits.RemovingIsNotSettled`, `SpliceLimits.DuplicateIsNotSettled`).
- Ids may hold spaces, `)`, `#`, `?` and backticks, but body links to such ids cannot be
  spelled: `RewriteBodyLinks` and `AbsolutizeBodyLinks` then lose or cut the link
  (`LinkLimits.MovesSafelyExactlyWhenPlain`, `LinkLimits.AbsolutizesSafelyExactlyWhenPlain`).
- `MovePathValue` cuts the value where the new id holds `#` or `?`, and where what it names
  ends in white space; other characters it follows (`PathFollows.FollowsExactly`,
  `PathFollows.MoveIsFollowedExactlyWhenPlain`).
- A log page loses the link of a change where the id holds white space or `)`, where it holds
  `#` or `?`, where a relative link starts like a URL, and where the title holds `]` or opens
  code that closes in the link (`LogRead.ChangeNamesItsConceptExactlyWhen`,
  `LogRead.SpaceIsNoLink`, `LogRead.BracketIsNoLink`).
- A value with a control character is printed as no token of YAML
  (`PathTokens.SpellReads`, `PathTokens.ControlIsLost`), and one that starts with a dash and a
  blank as no scalar (`PathScalars.EntryIsLost`); the read-back of `RewritePathFields`
  is what notices.
- relativeTo does not take the shortest way to a target that is the directory or above it
  (`LogPages.ClimbsLeastExactlyWhen`).
- A second run of a move is not a no-op when the source lies under the destination
  (`PathMoves.SettlesExactlyWhenApart`).
- Two typeless documents of a bundle can be kept under one name, and one is lost
  (`BundleImport.StoredTogetherExactlyWhen`, `BundleImport.MarkdownCollides`).
- The dry run counts two documents of one id as if each were alone
  (`ImportSerial.TwoPredictedExactlyWhen`, `Import.TwinsAreCountedRightExactlyWhen`).
- The limit of one forced key fetch a minute is on fetches that succeed
  (`Caches.AsksExactlyWhen`, `Caches.FailedFetchesAreNotLimited`).
- `gatherSeedTables` takes `a.b` + `c` and `a` + `b.c` for one table
  (`SeedTables.ListsEveryTableExactlyWhen`, `SeedTables.DotsAreTakenForOthers`).
- The first of the two tests of `compareResults` is implied by the second
  (`Compare.PositionalImpliesAnyOrder`), and the second rearranges rows one by one
  (`Compare.RowByRow`).
- A policy read back and sent again can be another policy, where a prefix has white space
  just inside its slashes (`Access.ReadsBackExactly`, `Access.SpaceInsideIsLost`).

## Model

| member | source | states |
|---|---|---|
| `NormalText.FoldCrlf` | internal/okf/raw.go:93-118 | the carriage returns deleted are exactly those that only carriage returns separate from a line feed; every other character stays, in order |
| `NormalText.NormalizeText` | internal/okf/raw.go:81-91 | the stored text is the folded text without a leading byte-order mark and with one line feed at its end |
| `NormalText.NormalizedShape` | internal/okf/raw.go:50-91 | no CR stands before an LF; the text is empty or ends in exactly one LF |
| `NormalText.NormalIsFixed` | internal/okf/raw.go:50-91 | a text is stored byte for byte exactly when it is empty, or ends in one LF, holds no CR before an LF and opens with no byte-order mark |
| `NormalText.NormalizedTwice` | internal/okf/raw.go:81-91 | normalising twice is normalising once exactly when the text does not open with two byte-order marks |
| `DocumentText.SplitOfWritten` | internal/okf/raw.go:120-142 | cutting a document at its fences gives back the frontmatter and the body it was written from, whatever the body holds |
| `DocumentText.CutLosesNothingExactlyWhen` | internal/okf/raw.go:120-142 | fences, frontmatter and body make up the same bytes exactly when the closing fence has a line feed after it; otherwise everything is lost |
| `DocumentText.OpenEndIsLost` | internal/okf/raw.go:130-140 | a text whose header and body are all lost |
| `DocumentText.WrittenOfSplit` | internal/okf/raw.go:120-142 | so for stored text the cut loses nothing |
| `DocumentText.NormalByBody` | internal/okf/raw.go:81-142 | whether a document is stored as it is depends on its body alone, not on the frontmatter lines |
| `DocumentText.EditIsStoredAsItIs` | internal/okf/raw.go:120-210 | every line edit of a stored document yields text that normalising leaves alone and that reads back as the edited lines and the same body |
| `Frontmatter.Shrink` | internal/okf/raw.go:244-262 | the end of a key's range is drawn back over exactly the blank and comment lines that belong to what follows |
| `Frontmatter.OwnedRange` | internal/okf/raw.go:236-264 | the range of one owned key, from its own line to the line before the next key, drawn back unless the next key goes too |
| `Frontmatter.OwnedKeyRanges` | internal/okf/raw.go:231-266 | one range for each owned key, in order |
| `ServerKeys.StripKeys` | internal/okf/raw.go:179-210 | taking keys out equals dropping each owned key's block and keeping what it leaves to its neighbours; anything that is not a block mapping comes back as it is |
| `Claims.StripKeepsEverythingElse` | internal/okf/raw.go:160-210 | read back key by key, a stripped document says what it said under every key that was not taken out, and nothing under those that were |
| `BlockLaws.StripsBlock` | internal/okf/raw.go:160-266 | with its comments in the first column and, before another key, its blank lines at its end set aside, a key's block goes with it; what was set aside introduces the next key and stays, unless that key goes too; a block whose key stays is left as it is |
| `BlockLaws.StripsBefore` | internal/okf/raw.go:160-210 | what stands before the first key stays |
| `Claims.StripRemovesOwned` | internal/okf/raw.go:172-210 | no owned key is left |
| `Claims.StripUndoesAppend` | internal/okf/raw.go:552-592 | strip undoes append: lines without owned keys, with a rendered block after them, strip to themselves |
| `Claims.AppendsExactlyWhenUnowned` | internal/okf/raw.go:580-592 | the append's self-check passes exactly for a block mapping that holds none of the keys |
| `Claims.AppendedText` | internal/okf/raw.go:552-612 | every line of a rendered block is appended as it is, after the spaces of the frontmatter's first line that is neither blank nor a comment |
| `Claims.NoIndent` | internal/okf/raw.go:596-612 | where no line of the frontmatter is other than blank or a comment, nothing is put before |
| `Claims.MoveServerKeys` | internal/okf/raw.go:363-456 | the moved document, the names claimed and whether a claim is read back, for every document |
| `Claims.Knowledge.DropClaim` | internal/okf/raw.go:463-472 | the claim goes from the attributes and from the document, and nothing else |
| `Claims.ClaimGoesIn` | internal/okf/raw.go:392-456 | where something readable was owned and no claim was there, the claim is in the result exactly when the foreign keys decode as they stand and none comes twice; otherwise the document is handed back as it came |
| `Claims.ClaimIsReadBackExactlyWhen` | internal/okf/raw.go:392-456 | a claim is read back exactly where something readable was owned, no claim was there, every foreign value decodes as it stands and no foreign key comes twice |
| `Claims.ClaimSaysWhatTheyDid` | internal/okf/raw.go:363-412 | where a claim goes in, what is appended is the rendering of a map from exactly the readable keys of this instance's to what the last block of each said; the names claimed are those of their blocks in document order |
| `Claims.MoveLeavesNoOwnedKey` | internal/okf/raw.go:363-456 | a write leaves a key of this instance's exactly when it hands the document back |
| `Claims.MoveIsIdempotent` | internal/okf/raw.go:363-412 | a second write of what the first stored changes nothing and claims nothing |
| `Claims.ExportThenWriteBack` | internal/okf/raw.go:363-456 | export always manages to append to a block mapping; writing the export back gives the stored bytes, at once when the document held a claim and after DropClaim when it did not, exactly where the stored frontmatter decodes as it stands or held a claim; elsewhere the export itself is stored |
| `Claims.LostExactlyWhenUnreadable` | internal/okf/raw.go:363-456 | an owned key is neither left nor kept under `received` exactly when no value of it can be decoded, no claim was there and the document is not handed back |
| `Claims.UnreadableKeyIsLost` | internal/okf/raw.go:375-391 | a document whose owned key is lost in this way |
| `Claims.DecodedDocumentsLoseNothing` | internal/okf/parse.go:71-88 | of a document that decodes with its timestamps as text nothing is lost, and it is handed back exactly when it holds an owned key, no claim, and a foreign value that decodes only with its timestamps as text |
| `Claims.OwnedKeyIsStored` | internal/okf/raw.go:400-456 | such a document: it is let through and stored with this instance's key in it |
| `Splice.MarkKeys` | internal/okf/frontmatter.go:182-206 | the act and drop arrays mark, for every key to set or unset, its block's lines, and for a set key the line where it first stood |
| `Splice.EmitMarked` | internal/okf/frontmatter.go:207-219 | each marked key's rendered lines come out once, at its first position, and a key leaves the replace map when it does |
| `Splice.SpliceKeys` | internal/okf/frontmatter.go:176-236 | the spliced lines as a function of the document, the blocks to set and the keys to unset |
| `BlockLaws.SplicesBlock` | internal/okf/frontmatter.go:176-236 | the first block of a document spliced, then the rest: a set key's new block stands where its first did and goes from everywhere else, what introduces the next key stays unless that key is the same, a block of no key asked for is left as it is |
| `BlockLaws.SplicesBefore` | internal/okf/frontmatter.go:176-236 | what stands before the first key stays |
| `BlockLaws.SplicesNothing` | internal/okf/frontmatter.go:220-235 | the blocks of keys that are new follow, in the order of their keys |
| `SpliceLaws.SplicedKeys` | internal/okf/frontmatter.go:101-236 | the keys of the result: those of the document in order, a set key where it first stood, none that was unset, then the new keys sorted |
| `SpliceLaws.EachKeyOnce` | internal/okf/frontmatter.go:101-236 | a set key occurs exactly once, an unset one not at all, any other as often as before |
| `SpliceLaws.SplicedSays` | internal/okf/frontmatter.go:101-236 | a set key says what was rendered for it, an unset one nothing, every other key exactly what it said before |
| `SpliceSettles.SettlesExactlyWhen` | internal/okf/frontmatter.go:101-236 | for every document and every request, a second identical save changes nothing exactly when each rendered block, where it stands in the result, ends in no comment line, and in no blank one unless it comes last, and no blank line is handed on to the last one by the blocks that went |
| `SpliceSettles.SettingSettlesExactlyWhen` | internal/okf/frontmatter.go:101-236 | with nothing unset and no key twice, the condition on the rendered blocks alone |
| `SpliceSettles.SavingTwiceIsSavingOnce` | internal/okf/frontmatter.go:101-236 | in particular when no rendered block ends in a blank or comment line |
| `SpliceLimits.RemovingIsNotSettled` | internal/okf/frontmatter.go:176-236 | unsetting a last key with a blank line before it: the next save drops that line |
| `SpliceLimits.DuplicateIsNotSettled` | internal/okf/frontmatter.go:176-236 | a duplicated key: the second save differs from the first |
| `SpliceLimits.BlankEndIsNotSettled` | internal/okf/frontmatter.go:176-236 | a rendered block that ends in a blank line gains another at every save |
| `FrontmatterEdit.VerifySpliced` | internal/okf/frontmatter.go:253-276 | the read-back accepts exactly the documents that parse as keys, hold every set key and no unset one |
| `FrontmatterEdit.SetFrontmatterKeys` | internal/okf/frontmatter.go:126-172 | accepted exactly when the request may be made and reads back; then only the spliced lines changed and the body is the same |
| `FrontmatterEdit.HonouredExactlyWhen` | internal/okf/frontmatter.go:101-172 | the read-back refuses exactly the requests that set and unset one key, or that leave comments or blank lines with no key |
| `Edits.ApplyBackward` | internal/domain/links.go:256-260 | edits applied from the last to the first replace all their stretches at once |
| `LinkEdit.ScanEdited` | internal/domain/links.go:31-41 | scanning a line again after one target was replaced finds the same links, the edited one with its new target and those after it moved |
| `LinkEdit.SpansEdited` | internal/domain/links.go:38-41 | the code spans of the line are the same but for their offsets |
| `LinkApart.ApartEdited` | internal/domain/links.go:199-262 | a line on which no code span overlaps a link stays one when a target is replaced |
| `LinkRead.ReadersAgree` | internal/domain/links.go:113-141 | on such a line, blanking code spans and then reading finds exactly the links that the rewriter sees outside code |
| `LinkRewrite.CollectEdits` | internal/domain/links.go:230-255 | one edit for each link outside code, not an image, whose target the rewriter changes |
| `LinkRewrite.RewriteLine` | internal/domain/links.go:228-262 | the rewritten line: every such target replaced, every other character in place |
| `LinkMeaning.RewriteKeepsReading` | internal/domain/links.go:113-141 | after the rewrite the separately written reader finds the links it found before, in order and with their words, each target passed through the rewriter |
| `LinkBody.ProseLines` | internal/domain/links.go:124-141 | the lines outside fences, code spans blanked |
| `LinkFences.OpensExactly` | internal/domain/links.go:36-37 | a fence opens exactly at a line whose first three backticks or tildes come after at most three white-space characters |
| `LinkFences.ProseIsRead` | internal/domain/links.go:124-141 | where no line before is a fence, each line is read and rewritten on its own |
| `LinkFences.LinksAroundBlock` | internal/domain/links.go:124-141 | with a block between two marks, the links of a body are those before it, then those after it, whatever stands in the block that does not start with its mark |
| `LinkFences.LinksBeforeOpenBlock` | internal/domain/links.go:124-141 | a block that nothing closes hides the rest of the body |
| `LinkFences.RewriteAroundBlock` | internal/domain/links.go:203-226 | a rewrite leaves the block as it is, and rewrites what stands before and after it as bodies of their own |
| `LinkFences.CodeIsBlock` | internal/domain/links.go:36-37 | a line of code between two fences of either mark is such a block |
| `LinkBody.RewriteBody` | internal/domain/links.go:203-226 | every prose line rewritten, fence lines and fenced lines as they were |
| `LinkBody.RewrittenOpens` | internal/domain/links.go:36-37 | a rewritten line opens a fence exactly when it did, whatever the rewriter |
| `LinkBody.BodyKeepsReading` | internal/domain/links.go:199-226 | for a whole body: the links found are the old ones with each target passed through the rewriter, no line changes between prose and code, and lines that are not prose are the same text |
| `LinkBody.BodyIsLeft` | internal/domain/links.go:143-160 | a body none of whose links the rewriter changes is returned unchanged |
| `LinkMoves.LinksFromBody` | internal/domain/links.go:43-72 | the links of the body read at the id, in order, each (target, text) once, less those that name no concept or the body's own |
| `LinkMoves.LinksAreNamed` | internal/domain/links.go:43-72 | a link is listed exactly when the body names it and it is not dropped |
| `LinkMoves.LinksAreFound` | internal/domain/links.go:48-72 | the links of a body are what the links found in its prose say: no image, the concept the target names, unless none or the body's own, and the words trimmed |
| `LinkMoves.LinksOnce` | internal/domain/links.go:43-72 | no (target, text) pair is listed twice |
| `LinkMoves.RewriteBodyLinks` | internal/domain/links.go:143-160 | the body with the move's rewriter applied to every link |
| `LinkMoves.MoveKeepsMeaning` | internal/domain/links.go:143-160 | read at any id, the rewritten body names what the old one named, link by link and in the same words, with the old id replaced by the new |
| `LinkMoves.MoveLeavesTheRest` | internal/domain/links.go:143-145 | the body is unchanged when nothing referred to the old id |
| `LinkMoves.MoveTwice` | internal/domain/links.go:152-160 | a second identical rewrite changes nothing |
| `LinkMoves.MoveThereAndBack` | internal/domain/links.go:152-160 | moving there and back restores what every link names, unless something named the new id before |
| `LinkMoves.AbsolutizeBodyLinks` | internal/domain/links.go:162-188 | the body with every resolvable relative target made absolute |
| `LinkMoves.AbsoluteMeansTheSame` | internal/domain/links.go:162-188 | every link that names a concept at the old id names it from every other id afterwards, with the same words |
| `LinkMoves.AbsoluteTwice` | internal/domain/links.go:162-188 | making a body absolute twice is doing it once |
| `LinkLimits.MovesSafelyExactlyWhenPlain` | internal/domain/links.go:152-160 | a move keeps the meaning of every readable body exactly when the new id has no white space, `)`, backtick, `#` or `?` and no slash at either end |
| `LinkLimits.AbsolutizesSafelyExactlyWhenPlain` | internal/domain/links.go:176-188 | making bodies absolute keeps every meaning exactly when the directory of the id has no such character and no leading slash |
| `LinkLimits.OverlapIsLeftBehind` | internal/domain/links.go:124-160 | a code span over a link's bracket: the reader sees an edge, the rewriter does not, and a move leaves the edge behind |
| `LinkLimits.ClimbingTargetMoves` | internal/domain/links.go:78-109 | a target that climbs out of the bundle names nothing, is left alone, and names a concept one directory down |
| `LinkTarget.MoveTargetResolves` | internal/domain/links.go:78-160 | one rewritten target resolves to the new id exactly where the old one resolved to the old id, and is otherwise the same text |
| `LinkTarget.AbsoluteTargetResolves` | internal/domain/links.go:176-188 | one target that resolves keeps its resolution from every id |
| `LinkTarget.SchemeIs` | internal/domain/links.go:111 | a target looks like a URL exactly when a letter, then letters, digits, `+`, `.` or `-`, come before a colon |
| `RelativeTargets.RelativeNames` | internal/domain/links.go:78-109 | a relative target of so many climbs and so many segments names what is reached from the concept's directory by them, and nothing where it climbs above the root |
| `RelativeTargets.SuffixNamesDirectory` | internal/domain/links.go:78-109 | a target of only `.md` names the directory's own concept |
| `PathTokens.FindTokenEnd` | internal/okf/pathfields.go:179-218 | the end of a plain or quoted scalar on its line, or that it is not there |
| `PathTokens.SpellReads` | internal/okf/pathfields.go:220-241 | a value, printed in either quoting, reads back as itself under sections 5.1, 7.3.1 and 7.3.2 of YAML 1.2.2 exactly when it has no control character but tabs |
| `PathTokens.SingleReadsExactly` | internal/okf/pathfields.go:220-226 | a single-quoted token reads as a value exactly when it is that value printed so, without a control character but tabs |
| `PathTokens.ControlIsLost` | internal/okf/pathfields.go:220-241 | a value a double-quoted token can say by an escape, and that is printed as no token in either quoting |
| `PathScalars.PrintedReads` | internal/okf/pathfields.go:220-241 | a value printed in any style reads back as itself, a plain one under section 7.3.3 of YAML 1.2.2, exactly when, in quotes, it has no control character but tabs, and, without, it is printable and does not start an entry |
| `PathScalars.EntryIsLost` | internal/okf/pathfields.go:220-241 | a value that starts with a dash and a blank is printed as it is, and reads as no scalar |
| `PathScalars.PlainIsFound` | internal/okf/pathfields.go:166-187 | a plain scalar is found exactly where its line holds its value at its column |
| `PathTokens.DoubleTokenEnds` | internal/okf/pathfields.go:187-198 | a double-quoted token ends where it was printed to, whatever follows |
| `PathTokens.SingleTokenEnds` | internal/okf/pathfields.go:199-212 | a single-quoted token ends where it was printed to exactly when no quote follows |
| `PathTokens.SwapTokens` | internal/okf/pathfields.go:132-163 | the swaps one after another, each token looked for on its line as it then stands, fail where one is not found; for scalars as a parser places them they succeed and replace all tokens at once, every other character in place |
| `PathTokens.SwapsFailExactlyWhen` | internal/okf/pathfields.go:132-163 | nothing is changed exactly when some token is missing at its turn |
| `PathScalars.ParsedIsPlaced` | internal/okf/pathfields.go:132-163 | edits of tokens that stand where the parser says, those of one line apart, are sorted so that each is found at its turn, whatever order they come in |
| `PathScalars.AnyOrderSwapsAlike` | internal/okf/pathfields.go:132-163 | the order the edits come in is nothing to the result |
| `PathScalars.EverySwappedReads` | internal/okf/pathfields.go:132-241 | after the swap every new token, of any style, stands on its line, ends where it was printed to, and reads as the value the edit gave it exactly where that value can be printed so |
| `PathMoves.ConceptMoved` | internal/domain/pathfields.go:23-31 | the two renames of a concept move never both match, and carry its document and what is under its directory |
| `PathMoves.ChangesExactlyWhen` | internal/domain/pathfields.go:54-99 | a value is changed exactly when it names a path that a rename carries, or one to be spelled from the root that is written as a relative path without white space; no URL is |
| `PathMoves.ReadsExactly` | internal/domain/pathfields.go:55-80 | a value in absolute form names the path written into it exactly when that path is clean, has no `#` or `?`, does not start with `..` and does not end in white space with no fragment after it |
| `PathMoves.ValueFollows` | internal/domain/pathfields.go:39-84 | a value that names what a move carries reads, from any id, as the moved path exactly when that path can be spelled so; any other is left alone or, absolutized, keeps its meaning exactly when its path can be spelled |
| `PathMoves.MoveUndone` | internal/domain/pathfields.go:54-84 | the reverse move restores every path, when nothing was under the destination |
| `PathMoves.MoveNotUndone` | internal/domain/pathfields.go:54-84 | a path that was under the destination already is taken along by the reverse move |
| `PathMoves.SettlesExactlyWhenApart` | internal/domain/pathfields.go:54-84 | a second run carries nothing exactly when neither id is the other or lies under it |
| `PathMoves.ValueThereAndBack` | internal/domain/pathfields.go:39-84 | a value that named what a move carries names it there afterwards and, after the move back, where it was, from any id |
| `PathMoves.HashIsLost` | internal/domain/pathfields.go:54-84 | an id with `#` or `?` cannot be followed: the moved value is cut where it stands |
| `PathFollows.FollowsExactly` | internal/domain/pathfields.go:34-85 | a value that names what the move of a concept carries follows it exactly when the new id has no `#` or `?` and the value names the document, or a path below the directory with no such character that does not end in white space |
| `PathFollows.MoveIsFollowedExactlyWhenPlain` | internal/domain/pathfields.go:34-85 | every value that names something carried in that way follows the move exactly when the new id has no `#` or `?` |
| `PathFollows.DirectoryMoveUndone` | internal/domain/pathfields.go:42-46 | the way back of a directory's move restores a path exactly when it was carried or lay outside the destination |
| `PathFollows.DirectoryMoveSettles` | internal/domain/pathfields.go:42-46 | a second run of a directory's move carries nothing exactly when neither directory lies in the other |
| `LogPages.RelativePath` | internal/okf/reserved.go:214-224 | the relative path, its index loop and repetition included |
| `LogPages.RelativeLeadsBack` | internal/okf/reserved.go:203-224 | joined to the directory it is read in, the relative path gives the target |
| `LogPages.ClimbsLeast` | internal/okf/reserved.go:203-224 | of all relative paths to the target that end in its own name, this one has the fewest `..` segments |
| `LogPages.ClimbsLeastExactlyWhen` | internal/okf/reserved.go:208-224 | of all relative paths from the directory to the target relativeTo's climbs least, exactly when the target is not the directory or one above it |
| `LogPages.LogDocument` | internal/okf/reserved.go:179-201 | the caller's slice is sorted in place, newest first and stable, and the page is its lines under date headings |
| `LogPages.SortIsStable` | internal/okf/reserved.go:180 | changes of one instant keep the order they were given in |
| `LogPages.LogIsInOrder` | internal/okf/reserved.go:131-201 | the page lists every change exactly once, newest first, and each date heading once, newest first |
| `LogPages.ChangesAreFiled` | internal/okf/reserved.go:131-201 | every change stands under the heading of the UTC day it falls on, in the words of its title or its path, and its link leads from the page's directory to what changed |
| `LogLinks.LogLinkResolvesExactlyWhen` | internal/okf/reserved.go:169-224 | the bare target of a change's link, resolved as body links are from the page's directory, names the concept exactly when it has no `#` or `?` and does not look like a URL |
| `LogRead.PieceReadsExactlyWhen` | internal/okf/reserved.go:188-193 | the printed words and link read as exactly that link, in those words, exactly when no code span reaches past the words, they hold no `]` outside code, and the link holds no white space and no `)` |
| `LogRead.ChangeNamesItsConceptExactlyWhen` | internal/okf/reserved.go:169-224 | what is printed for a change to a concept reads as one link that names it, exactly when this holds and the link has no `#` or `?` and does not look like a URL |
| `LogRead.OneLinePiece` | internal/okf/reserved.go:188-193 | where it is one line, a body made of it has those links |
| `LogRead.SpaceIsNoLink` | internal/okf/reserved.go:188-193 | the id `a b`: its target resolves, and no reader finds it in what is printed |
| `LogRead.BracketIsNoLink` | internal/okf/reserved.go:188-193 | a title with `]`: no link is read |
| `EditDistance.EditDistance` | cmd/ochakai/main.go:194-212 | the two swapped rows compute the recursive Levenshtein distance |
| `EditDistance.ShortestScript` | cmd/ochakai/main.go:192-212 | the distance is the length of a script of single-byte edits that turns one text into the other, and no script is shorter |
| `EditDistance.Symmetric` | cmd/ochakai/main.go:194-212 | the distance is symmetric |
| `EditDistance.ZeroExactlyWhenEqual` | cmd/ochakai/main.go:194-212 | it is zero exactly between equal texts |
| `EditDistance.Triangle` | cmd/ochakai/main.go:194-212 | it obeys the triangle inequality |
| `EditDistance.Bounds` | cmd/ochakai/main.go:194-212 | it lies between the difference of the lengths and the longer length |
| `EditDistance.NearestCommand` | cmd/ochakai/main.go:172-190 | the suggestion is the alphabetically first name of those at the least distance below len/3+1, and "" when there is none |
| `EditDistance.NearestIsOne` | cmd/ochakai/main.go:172-190 | there is only one such name |
| `Import.EveryRunAsPlanned` | cmd/ochakai/client.go:1733-1882 | whatever the interleaving of the workers, a completed run has counted each object as planned alone against the initial server, and the server holds each as planned and is otherwise as it was |
| `Import.DryRunPredicts` | cmd/ochakai/client.go:1899-2041 | every completed dry run and every completed import of the same bundle end with the same counters, refusals, skips and notes, and the dry run writes nothing |
| `Import.CountsAddUp` | cmd/ochakai/client.go:1733-1882 | every concept is created, updated, unchanged or skipped; every attributed file attached, orphaned or skipped; every loose one written or skipped |
| `ImportCounts.CountersSay` | cmd/ochakai/client.go:1733-1882 | of a completed run or dry run at distinct addresses: created counts the accepted concepts with nothing stored at their path, unchanged those with what would be stored there, updated the rest; orphaned the accepted files whose concept's id was refused, attached the rest; the skips and notes are the rulings' |
| `ImportCounts.ServerHolds` | cmd/ochakai/client.go:1733-1882 | after a completed import each accepted object is stored as its ruling has it, and nothing else has changed |
| `Import.NextKeeps` | cmd/ochakai/client.go:1660-1670 | each step of the loop or of a worker keeps the invariant, at most eight in flight among it |
| `Import.NeverStuck` | cmd/ochakai/client.go:1657-1670 | until every object is recorded or an error has ended the import, some step can be taken |
| `Import.RunsEnd` | cmd/ochakai/client.go:1657-1670 | no run has more than three steps for each object |
| `ImportSerial.EveryRunIsSerial` | cmd/ochakai/client.go:1660-1882 | whatever the interleaving, and whatever addresses the objects share, a completed run ends with the server and the counters of the same objects put one after another in the order they were asked about |
| `ImportSerial.DryRunOfTwo` | cmd/ochakai/client.go:1899-2041 | a dry run counts two documents each as if alone, whatever their addresses |
| `ImportSerial.TwoPredictedExactlyWhen` | cmd/ochakai/client.go:1899-2041 | over every server and every interleaving, the dry run of two documents predicts their import exactly when each counts after the other what it would alone |
| `Import.TwinsAreCountedRightExactlyWhen` | cmd/ochakai/client.go:1899-2041 | two documents with one id, put one after the other: the dry run counts what the import does exactly when something was stored there that differs from the second as the first does; where nothing was, it says two are created and the import creates one |
| `ImportRun.Importer.constructor` | cmd/ochakai/client.go:1733-1739 | the shared state before any worker starts |
| `ImportRun.Importer.Launch` | cmd/ochakai/client.go:1660-1670 | a worker is started for the next object |
| `ImportRun.Importer.Ask` | cmd/ochakai/client.go:1757-1779 | the call outside the lock |
| `ImportRun.Importer.Record` | cmd/ochakai/client.go:1780-1805 | the critical section: counters, refused set, skip list and notes updated as the step says |
| `ImportRun.StrictVerdictPredicted` | cmd/ochakai/client.go:1890-1897 | a strict dry run and a strict import of one bundle fail or pass together |
| `ImportRun.StrictVerdictIs` | cmd/ochakai/client.go:1885-1897 | the strict verdict of a completed run or dry run passes exactly when every object was accepted, with nothing noted and no claim that stayed on a concept |
| `DirTree.Dir.constructor` | internal/okf/okf.go:300-307 | an empty directory |
| `DirTree.Dir.Insert` | internal/okf/okf.go:314-329 | one concept more: count, entries and subdirectories agree with the flat list it was added to |
| `DirTree.Dir.InsertFile` | internal/okf/okf.go:331-344 | one file more where its directory exists; no directory is made |
| `DirTree.Dir.SubdirLines` | internal/okf/okf.go:346-372 | a line for each subdirectory, in the alphabet, with the number of concepts below it |
| `DirTree.Dir.WriteIndexes` | internal/okf/okf.go:359-396 | a page is added for exactly this directory and those below it, each as the flat list says |
| `DirTree.Indexes` | internal/okf/okf.go:285-298 | the pages of a bundle as a function of its flat list, wherever a concept lies beneath |
| `DirTree.ByPathHas` | internal/okf/okf.go:285-298 | the tree is filled from the same objects, sorted by path |
| `DirTree.PagesWhere` | internal/okf/okf.go:273-298 | a page is written for the root and for exactly the directories that are a proper segment prefix of a concept's id |
| `DirTree.CountsAreRight` | internal/okf/okf.go:301-316 | the count beside a subdirectory is the number of ids under its path |
| `DirTree.ListedHere` | internal/okf/okf.go:273-298 | a page lists the concepts and files of its own directory, each once and in order, and nothing else |
| `DirTree.EveryConceptIsReached` | internal/okf/okf.go:359-396 | from the root page every concept is reached by subdirectory lines |
| `Bundle.UnclaimMarkdown` | internal/okf/bundle.go:140-163 | the renaming loop ends, at the first of the suffixed names that no file of the input has |
| `Bundle.ResolveFiles` | internal/okf/file.go:54-125 | the attributed files: by reference first, then by namespace |
| `Bundle.SortOut` | internal/okf/bundle.go:53-97 | the first pass: concepts, reserved notes and what is neither |
| `Bundle.KeepRest` | internal/okf/bundle.go:104-133 | the last pass: what is claimed, skipped, and kept loose under which name |
| `Bundle.FromBundle` | internal/okf/bundle.go:12-138 | the reading of a bundle: concepts, attributed files, loose files, skips and reserved notes |
| `BundleShares.EveryFileGoesOneWay` | internal/okf/bundle.go:33-138 | a file of the bundle that is not hidden is at most one of index page, reserved note, concept, attributed file and skipped, with its bytes where it is kept, and if none of these is among the loose files; a hidden one can only be attributed |
| `BundleShares.WhichWay` | internal/okf/bundle.go:33-138 | which way a file goes, by the dots and the last segment of its path, whether its document is a concept, and whether it can be stored |
| `BundleShares.LooseAreLeftOver` | internal/okf/bundle.go:104-138 | the loose files are exactly those left over, as many and each with its bytes |
| `BundleShares.ConceptsAreOfTheInput` | internal/okf/bundle.go:53-97 | each concept of the reading is a document of the bundle, and no two have one id |
| `BundleLaws.ClaimsSound` | internal/okf/file.go:54-125 | every attributed file is a file of the input with its bytes and no markdown, and the used set is theirs |
| `BundleLaws.ClaimedAreAttributed` | internal/okf/file.go:54-62 | hidden files aside, a file is claimed exactly when it is attributed, with its bytes |
| `BundleLaws.ReferenceIsHonoured` | internal/okf/file.go:54-98 | an attachable file a concept refers to is that concept's, unless the concept has one of its name |
| `BundleOwners.FilesGoToTheirConcepts` | internal/okf/file.go:54-125 | an attributed file has the id of a concept whose links bring it in or, where no links bring it in, in whose directory it lies; every file the links of a concept bring in is attributed to it, and of those that live in its directory one of each name; a concept has no two files of one name |
| `BundleOwners.NamedIsReferred` | internal/okf/file.go:64-98 | an attachable file that a link of a concept names is brought in by its links, or another of its name that they name earlier is |
| `BundleImport.StoredTogetherExactlyWhen` | internal/okf/bundle.go:140-163 | two unclaimed files are kept under one name exactly when both are typeless documents and the stem of one, with `.markdown` once or more and every name on the way taken, is the stem of the other |
| `BundleImport.StoredApart` | internal/okf/bundle.go:140-163 | so not when no typeless stem ends in `.markdown` |
| `BundleImport.LooseDistinctExactlyWhen` | internal/okf/bundle.go:104-163 | the loose files of a reading go to paths of their own exactly when no two kept typeless documents collide so |
| `BundleImport.MarkdownCollides` | internal/okf/bundle.go:140-163 | `x.md` and `x.markdown.md` beside `x.markdown` are both kept as `x.markdown.markdown` |
| `BundleImport.ReadingIsDistinct` | internal/okf/bundle.go:12-138 | where none collide, no two objects of a reading go to one address, but a file attributed to several concepts |
| `BundleImport.BundleDryRunPredicts` | cmd/ochakai/client.go:1899-2041 | the dry run of a bundle predicts its import |
| `SeedTables.Gather` | cmd/ochakai/seed.go:209-235 | the tables the rows open, each with the columns of all rows of its dotted name in order, sorted by schema and name |
| `SeedTables.GatheredIs` | cmd/ochakai/seed.go:209-235 | a table is listed exactly when a row that counts opens it, under that row's names and with those columns; the listing is in order and no two tables have one name in one schema |
| `SeedTables.ListsEveryTableExactlyWhen` | cmd/ochakai/seed.go:212-228 | every table of the rows is listed under its own names with exactly its columns exactly when no two rows that count spell one dotted name out of two schemas |
| `SeedTables.ListsNothingElse` | cmd/ochakai/seed.go:212-235 | then it has nothing else |
| `SeedTables.DotsAreTakenForOthers` | cmd/ochakai/seed.go:212-228 | `a.b` + `c` and `a` + `b.c`: the listing is one table, the first, with the columns of both |
| `Shards.FoldShards` | cmd/ochakai/seed.go:242-317 | the folded listing: sorted, holding exactly the tables that do not fold and one entry for each group that does |
| `Shards.FoldIsOne` | cmd/ochakai/seed.go:284-300 | the result does not depend on the order a map hands out its groups |
| `ShardLaws.EveryTableOnce` | cmd/ochakai/seed.go:242-317 | a table is listed as it was, or is a suffix of an entry with at least two and no longer listed itself |
| `ShardLaws.FoldsExactlyWhen` | cmd/ochakai/seed.go:237-300 | a table is folded away exactly when its name is a stem that ends in no digit and a calendar date of eight, another of its schema is dated with that stem, and none is named by it |
| `ShardLaws.HeldByOne` | cmd/ochakai/seed.go:242-317 | of only one entry |
| `ShardLaws.EntriesAreTrue` | cmd/ochakai/seed.go:242-317 | every suffix of an entry is a table that was folded; suffixes are sorted and the columns are the latest shard's |
| `ShardLaws.FoldIsDistinct` | cmd/ochakai/seed.go:262-265 | no two entries have one name in one schema |
| `ShardLaws.FoldTwice` | cmd/ochakai/seed.go:266-317 | folding a folded listing gives it back |
| `Compare.SameRows` | cmd/ochakai/eval.go:410-433 | the count map decides whether one result's keys are among the other's, counted |
| `Compare.CompareResults` | cmd/ochakai/eval.go:394-408 | too large, a mismatch or a match, each exactly when |
| `Compare.PositionalIsMultiset` | cmd/ochakai/eval.go:389-433 | by position, results match exactly when they hold the same normalised rows the same number of times |
| `Compare.AnyOrderIsBags` | cmd/ochakai/eval.go:389-433 | in any column order, exactly when they hold the same bags of cells the same number of times |
| `Compare.PositionalImpliesAnyOrder` | cmd/ochakai/eval.go:404-406 | a match by position is one in any column order: the first test decides nothing on its own |
| `Compare.RowOrderIsNothing` | cmd/ochakai/eval.go:389-393 | the order of the rows is nothing to either mode |
| `Compare.ColumnOrderIsNothing` | cmd/ochakai/eval.go:389-393 | one rearrangement of the columns of all rows still matches |
| `Compare.RowByRow` | cmd/ochakai/eval.go:410-419 | two results match although no one order of the columns makes the one of the other |
| `Caches.OIDC.KeySet` | internal/httpauth/oidc.go:224-255 | one call: the new state and the keys or the error |
| `Caches.KeysNeverLost` | internal/httpauth/oidc.go:222-255 | over every timed run: once a fetch has succeeded no call fails, and each returns what the latest successful fetch brought |
| `Caches.FetchesApart` | internal/httpauth/oidc.go:226-236 | a call that asks the issuer comes at least a minute after every fetch that succeeded, an hour without force |
| `Caches.AsksExactlyWhen` | internal/httpauth/oidc.go:226-252 | where the address of the keys is known or found, a call asks exactly when no fetch has succeeded within the last minute, the last hour without force; fetches that failed do not count |
| `Caches.NoAddressNoKeys` | internal/httpauth/oidc.go:237-243 | without an address a call never asks, and fails |
| `Caches.ServedKeysAreFresh` | internal/httpauth/oidc.go:226-236 | keys served without asking are younger than an hour, or than a minute when forced |
| `Caches.FailedFetchesAreNotLimited` | internal/httpauth/oidc.go:231-252 | after a fetch has failed the next forced call asks again, however soon |
| `Caches.GoogleAccess.Cached` | internal/httpauth/google.go:77-83 | the first critical section |
| `Caches.GoogleAccess.Judge` | internal/httpauth/google.go:113-134 | the second: which answers are accepted, as whom, and what is kept |
| `Caches.CacheIsGoogles` | internal/httpauth/google.go:73-135 | over every interleaving the cache holds at most ten thousand verdicts, and one on a token exactly when an answer about it was accepted since the cache was last emptied: what the latest of them said of the caller, for five minutes or until the token expires |
| `Caches.ServedVerdictsStand` | internal/httpauth/google.go:73-135 | a verdict is served exactly until five minutes after the call or the token's end, and names the caller by an address that is not said to be unverified, else by the subject |
| `Access.UnderIsSegments` | internal/domain/access.go:84-99 | a scope covers a path exactly when its segments lead the path's |
| `Access.UnderIsOrder` | internal/domain/access.go:84-99 | scopes are partially ordered, the root above all |
| `Access.ScopesNest` | internal/domain/access.go:84-99 | two scopes that cover one path lie one in the other |
| `Access.ValidateAccessRules` | internal/domain/access.go:101-149 | accepted exactly when there are at most a thousand rules, each of which may stand (a plain path, at most 320 characters of `*`, `human:` or `process:` and a name without white space, no administering at the root), and no two clash; then the grants, one for each rule, in order |
| `Access.AcceptableIs` | internal/domain/access.go:101-149 | this test, in those terms, is the program's |
| `Access.PolicyIs` | internal/domain/access.go:101-149 | the policy returned has one grant for each rule: its prefix and principal trimmed, the same leave to administer, and leave to write exactly where the rule may write or administer |
| `Text.TrimIs` | internal/domain/access.go:114-115 | trimming leaves the one stretch that neither starts nor ends with what is cut, and cuts nothing else |
| `Order.LessIsAtTheFirstDifference` | internal/domain/access.go:141-146 | strings are ordered by their first difference |
| `Access.ReadsBackExactly` | internal/domain/access.go:101-106 | a prefix that was read reads back as itself exactly when no white space stands just inside it |
| `Access.SpaceInsideIsLost` | internal/domain/access.go:101-149 | a policy that validates, reads back as another that validates, and that as a third |
| `Access.AccessPolicyVersion` | internal/domain/access.go:174-199 | the hashed text: one line for each rule, in order |
| `Access.VersionIgnoresOrder` | internal/domain/access.go:151-199 | the version does not depend on the order the rules arrive in |
| `Access.VersionTellsGrants` | internal/domain/access.go:151-199 | two policies have one text exactly when they make the same (prefix, principal, level) grants, NULs in principals included |
| `Access.ValidatedVersions` | internal/domain/access.go:101-199 | so two validated policies have one version exactly when they make the same grants |

## Left out

- YAML is not parsed or printed. A frontmatter is lines, some of which a parser reports as the first line of a top-level key; values are opaque. That an edit leaves the parser's report of the other lines as it was is assumed; the program checks it at run time (`internal/okf/frontmatter.go:165`, `internal/okf/raw.go:586`). What is proved is about keys and lines: a `|+` scalar can gain a blank line when its neighbour goes.
- Unicode normalisation (`Normalize`) is the identity: ids and link targets are taken as already normalised. LinksFromBody normalises a resolved target and RewriteBodyLinks does not, so for other targets the two can differ.
- Text is a sequence of characters. Lengths the program counts in bytes (128 and 512 in ids and prefixes, 320 in principals) are counted in characters.
- HTTP, the network, files, token acquisition, JWT signatures, SHA-256 and the clock are given as functions, parameters or events. A hash stands for the text that is hashed, a token for its own hash.
- The server of an import is a function of the object and of what is stored at its path. That a ruling does not depend on other objects is assumed.
- sendIndexes (`cmd/ochakai/client.go:2071-2094`) and the printed lines of an import; the dry run and the import word the skip of a document that cannot be rendered differently, which the tally does not show.
- What a document says (parseDoc), which paths its links name for attribution (bodyLinkTargets) and what may be attached or stored (ValidateFile, ValidBundlePath, sizes) are given to Bundle as functions.
- renderPathBlocks, pathScalars and the read-back of RewritePathFields; what type YAML resolves a plain scalar to.
- FilesFromBody, resolveFileTarget, relative file links and images: they are not rewritten.
- The text of index.md and log.md pages (headings, descriptions, the capital of a change, the fields of a note) beyond which lines, counts and links they hold; the scope variant of the root page.
- foldConversation, readSeedColumns, seedDocument, NoteClaim, IsObservation, TrustOf and the small validators: what they promise one branch settles.
- The downgrade warning and the discovery checks of the OIDC client beyond whether discovery answers.
- The slice that ValidateAccessRules, Indexes and FoldShards sort in place is a value here; only LogDocument's is an array.
- LinkMoves.MoveKeepsMeaning: it asks that no code span on a line of prose overlaps a link (`LinkBody.ApartBody`, which a caller can check) and that no backtick stands between a link's `](` and its `)`; LinkLimits.OverlapIsLeftBehind shows what happens otherwise.
- LinkLimits.AbsolutizesSafelyExactlyWhenPlain: directories that start with `..` are set aside, because no valid id has one.
- Compare.PositionalIsMultiset: it asks for rows of one width and no unit separator in a normalised cell, as the program does without saying so.
- FrontmatterEdit.SetFrontmatterKeys: which refusal is given when several apply is not stated.
- Shards.FoldShards: it asks that no two tables have one name in one schema, which SeedTables.GatheredIs shows of what gatherSeedTables returns.
- Bundle.FromBundle: the final sorts of the concepts and the loose files, and the notes, are not modelled; the lists are in the order they were built.
- Bundle.ResolveFiles: the final sort of the attributed files is not modelled.
- Bundle.KeepRest: the notes about renamed files are not modelled.
- LogPages.LogDocument: a page is its pieces in order; the capital of a change, the actor and the text of a note are not spelled out.
- DirTree.Dir.WriteIndexes: titles, descriptions and the scope variant of the root page are not modelled.
- DirTree.Indexes: titles, descriptions and the scope variant of the root page are not modelled.
- Claims.MoveServerKeys: the claim is whether one is read back; the map that it decodes to is YAML's.
- PathTokens.SpellReads: the numeric escapes are not read, and a token with a line break, which a YAML parser folds, reads as nothing.
- LinkBody.BodyKeepsReading: the condition on code spans and links (`LinkBody.ApartBody`) is sufficient; a bracket inside a code span where no link is also fails it.
- LogRead.ChangeNamesItsConceptExactlyWhen: it is about the words and the link of a change; the rest of its line (the change, the actor, the note) is not part of the piece, so a backtick in a note that closes one in a title is not seen, nor is a title with a line break.
- Import.NextKeeps: after an error the loop may start any number of workers here, where the program starts at most one more; no completed run turns on it.
