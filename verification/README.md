# Pipe GUI panels: a verified model of their text processing

The Pipe desktop client is a set of egui panels that run the `pipe`
command-line program and show what it prints. This project models the
logic inside those panels in Dafny and proves properties of it. The
drawing code is left out. What is modelled:

- **Upload/download panel.** Modelled in `src/gui/upload.rs`:
  - the argument vector of a transfer;
  - the streaming splitter that cuts the command's output into lines at CR
    and LF and carries an unterminated fragment from one read to the next;
  - `extract_progress_info`, the progress recogniser, with the ratio and
    percentage patterns written as hand-made matchers;
  - the rewriting of the status text when a progress line arrives;
  - the status area's labels;
  - the `key=value` parsing of the upload list and its cards, badges and
    search highlighting.
- **Upload history panel.** Modelled in `src/gui/list.rs`:
  - loading the history file, skipping blank and undecodable lines and
    sorting newest first;
  - the search filter and the oldest-first reversal;
  - the views, the refresh rule, the shortened hash, the status badge and
    the hash highlight.
- **Public-link panel.** Modelled in `src/gui/link.rs`:
  - the file chooser's filter and its notices;
  - the create button's gate and the `create-public-link` argument vector;
  - the scan of the command's output for the direct link, the preview link
    and the hash, and the host-name fallback;
  - the status text and the processing flag on every outcome.
- **Wallet panel.** Modelled in `src/gui/wallet.rs`:
  - the numeric filter on amount boxes;
  - the `check-sol` and `check-token` parsers;
  - the usage report filter and its sectioning into cards;
  - the action argument vectors and result strings.
- **Local encrypt/decrypt panel.** Modelled in `src/gui/localencdec.rs`:
  - the proposed output file name;
  - the button gate and the argument vector;
  - the outcome text the thread appends;
  - the completion poll.
- **Login panel.** Modelled in `src/gui/login.rs`: the button gate, the
  `login` argument vector, the result text and the reset of the loading
  flag.
- **Start-up.** Modelled in `src/main.rs`: the choice between the command
  line and the window.

Each panel's status lives behind a lock shared with a worker thread. Here it
is a plain value, and each thing the thread does is a pure transition. What
a command prints is an input: a sequence of decoded chunks for the streaming
transfer, otherwise an exit status with stdout and stderr strings, or a
start-up error.

Modules:

- `Options`, `Seqs` and `Text`: shared helpers.
  - `Options` holds the option type.
  - `Seqs` holds generic filters, first and last hits, positions and
    reversal.
  - `Text` holds the Rust string operations the panels use: `lines`,
    `split`, `trim` and its variants, `find`, `to_lowercase` and
    `contains`.
- `Cli`: what running a command gives back, and a reader for
  `--flag value` pairs. The reader is used to state that an argument
  vector carries the values it was built from.
- Upload/download panel:
  - `LineSplitter`, `ProgressInfo`, `TransferStatus` and `TransferRun` model
    the transfer.
  - `StatusView` models the status area.
  - `UploadList` models the right-hand column.
- `History`: the upload history panel.
- `Link` and `LinkExamples`: the public-link panel and its worked example.
- `Wallet`, `LocalCrypt`, `Login` and `Dispatch`: the wallet panel, the
  local encrypt/decrypt panel, the login panel and the start-up choice.
- `WalletCards`: the wallet's usage cards restated through the positions
  of the header lines.

## Model

| member | source | states |
|---|---|---|
| LineSplitter.SplitTerminators | src/gui/upload.rs:250 | splitting at every CR and LF gives one more piece than there are terminators; no piece holds a terminator; the pieces concatenate to the text with its terminators deleted; the last piece is what follows the last terminator |
| LineSplitter.SplitStep | src/gui/upload.rs:248-255 | one read: the emitted lines and the kept fragment are break-free and together spell the old fragment plus the chunk without terminators; a buffer ending in a terminator keeps no fragment and emits terminator count + 1 lines, the last empty; otherwise it keeps the text after the last terminator and emits one line per terminator |
| LineSplitter.DrainSnoc | src/gui/upload.rs:242-299 | the read loop over one more chunk continues from the fragment the earlier reads left |
| LineSplitter.DrainText | src/gui/upload.rs:242-302 | over a whole stream the loop loses only the terminators: the emitted lines and the final fragment spell the stream without CR and LF, and all are break-free |
| LineSplitter.TerminatedBufferEmitsEmptyLine | src/gui/upload.rs:250-255 | a buffer `l` + LF emits `l` and an empty line and keeps nothing |
| LineSplitter.CrLfInOneRead | src/gui/upload.rs:250 | a CRLF pair read at once yields the line and two empty lines |
| LineSplitter.CrLfAcrossReads | src/gui/upload.rs:242-299 | the same bytes split between two reads yield three empty lines, so the output depends on chunk boundaries |
| LineSplitter.UnterminatedTailIsDropped | src/gui/upload.rs:244-300 | a stream whose text has no terminator emits nothing and leaves its text in the fragment, which the loop then discards |
| ProgressInfo.StripMarker | src/gui/upload.rs:381-388 | exactly one leading `PROGRESS:` is removed, or else one leading `[PROGRESS]`, or nothing; the result is a suffix of the input |
| ProgressInfo.PercentEnd | src/gui/upload.rs:391 | the percentage pattern matches at a position exactly when one to three digits there are followed by `%`, and the match ends after that `%` |
| ProgressInfo.MatchRatioAt | src/gui/upload.rs:390 | a ratio match starts with a digit and ends with `)` |
| ProgressInfo.FirstRatioSpec | src/gui/upload.rs:390-393 | the ratio search returns the leftmost position where the pattern matches, with that match's end, and nothing exactly when it matches nowhere |
| ProgressInfo.FirstPercentSpec | src/gui/upload.rs:391-395 | the percentage search returns the leftmost match and nothing exactly when there is none |
| ProgressInfo.ExtractProgressInfo | src/gui/upload.rs:379-399 | a returned progress value is non-empty, and break-free when the line is |
| ProgressInfo.ExtractedShape | src/gui/upload.rs:392-395 | a returned value starts with a digit and ends with `)` (a ratio) or `%` (a percentage) |
| ProgressInfo.MatchProgressNone | src/gui/upload.rs:392-398 | the search yields nothing exactly when neither pattern matches anywhere in the stripped line |
| ProgressInfo.MatchProgressRatio | src/gui/upload.rs:392-393 | when the leftmost ratio spans `p..e`, that whole slice is returned |
| ProgressInfo.MatchProgressPercent | src/gui/upload.rs:394-395 | with no ratio anywhere, the leftmost percentage is returned as its digits and `%`, trailing whitespace trimmed |
| ProgressInfo.RatioExample | src/gui/upload.rs:390-393 | `[PROGRESS] 42.0MiB / 100.0MiB (42%, 10s)` yields everything after the marker and its space |
| ProgressInfo.PercentExample | src/gui/upload.rs:391-395 | `PROGRESS: 42%` yields `42%` |
| ProgressInfo.LongPercentExample | src/gui/upload.rs:391 | at most three digits are taken: `1234%` yields `234%` |
| ProgressInfo.NoProgressExample | src/gui/upload.rs:396-397 | `[PROGRESS] uploading`, a marker with no number, yields nothing |
| TransferStatus.TransferArgs | src/gui/upload.rs:198-221 | upload: `upload-file local remote --tier <tier name>`, then `--encrypt --password pw` only when encrypting; download: `download-file remote save-as`, then `--decrypt --password pw` only when decrypting and `--legacy` only in legacy mode; always ending `--gui-style`; lengths fixed accordingly |
| TransferStatus.InitialStatus | src/gui/upload.rs:164-175 | a download starts from an empty status; an upload from the `Uploading` header, which ends in a newline |
| TransferStatus.KeptLinesInOrder | src/gui/upload.rs:259-269 | a progress event keeps exactly the status lines the mode does not count as progress, each once and in their order: in upload mode those that do not start, after leading whitespace, with `[PROGRESS]` or `Progress:`; in download mode those not starting with `[PROGRESS]`; the k-th kept line is the status line at the k-th such position |
| TransferStatus.ReplaceProgress | src/gui/upload.rs:259-275 | after a parsed progress value the status reads as the kept lines and then `[PROGRESS] value`, with no final newline |
| TransferStatus.ReplaceRawProgress | src/gui/upload.rs:278-291 | an unparsed `PROGRESS:` line replaces the upload-mode progress lines with `[PROGRESS] rest` and a newline |
| TransferStatus.AppendLine | src/gui/upload.rs:293-294 | any other line is appended verbatim with a newline; the old status is an unchanged prefix |
| TransferStatus.ApplyStdoutLine | src/gui/upload.rs:256-296 | one stdout line chooses among the three cases above, and keeps the status free of CR |
| TransferStatus.PlainLineGluedToProgress | src/gui/upload.rs:274-294 | a plain line right after a progress event is glued onto the progress line, which has no final newline |
| TransferStatus.PlainLineAfterProgressIsLost | src/gui/upload.rs:259-294 | the next progress event then removes that glued line with the progress line |
| TransferRun.ApplyEach | src/gui/upload.rs:256-297 | the inner loop applies the completed lines in order |
| TransferRun.ReadStdout | src/gui/upload.rs:242-302 | the stdout loop applies every line the splitter emits over the whole stream, in order |
| TransferRun.ReadStderr | src/gui/upload.rs:305-327 | the stderr loop appends every line the splitter emits, each with a newline |
| TransferRun.RunTransfer | src/gui/upload.rs:228-327 | a failed start appends one `❌ Failed to run CLI:` line; otherwise the stdout lines are applied, then the stderr lines appended |
| TransferRun.PlainLinesAppend | src/gui/upload.rs:292-295 | lines that carry no progress are appended one by one |
| TransferRun.StderrLinesFollow | src/gui/upload.rs:318-322 | on a line boundary the stderr lines read back as lines after the status's own |
| TransferRun.PlainDownload | src/gui/upload.rs:242-327 | a download whose output has no progress shows exactly its stdout lines, then its stderr lines |
| StatusView.LineLabel | src/gui/upload.rs:357-374 | a blank line has no label; a line starting with `[PROGRESS]` shows `Progress: ` and the text after the markers, trimmed, in the progress tone; any other line is shown as `✅ line` exactly when it mentions success or completed, as `❌ line` exactly when it does not but mentions failed or error, and as itself otherwise |
| StatusView.View | src/gui/upload.rs:347-376 | an empty status shows nothing; any other shows the heading first and no heading after it |
| StatusView.ViewShowsLines | src/gui/upload.rs:347-376 | after the heading the view holds one label per non-blank status line and nothing else: the k-th label is the label of the k-th non-blank line |
| StatusView.LabelsSelect | src/gui/upload.rs:350-374 | the labels of a run of lines are the labels of its non-blank lines, one each, in line order |
| StatusView.LabelsCount | src/gui/upload.rs:350-357 | every non-blank line yields exactly one label |
| StatusView.ProgressShown | src/gui/upload.rs:358-364 | after a progress event the status area ends with `Progress: value` in the progress tone |
| StatusView.BlankStatusShowsHeading | src/gui/upload.rs:349-357 | a status of blank lines still shows the heading |
| UploadList.ListResult | src/gui/upload.rs:61-73 | the list holds stdout on success, the failure heading and stderr on failure, the run error when the command cannot start |
| UploadList.RefreshCycle | src/gui/upload.rs:54-75 | after the refresh button a fetch is due whatever the list holds; after a failed fetch the next one is due exactly when more than ten seconds have passed, since a failure text is never the loading text |
| UploadList.FieldValue | src/gui/upload.rs:451-458 | a field value is never longer than its part and has no quote at either end |
| Text.TrimMatchesCharSlice | src/gui/upload.rs:452 | `trim_matches` of a character returns the slice left after removing the leading run of that character and a trailing run of it |
| Text.TrimStartMatchesRemoves | src/gui/upload.rs:452 | `trim_start_matches` removes from the front only a run of whole repetitions of the pattern |
| UploadList.FieldValueParts | src/gui/upload.rs:451-458 | a part reads as a run of repeated keys, then a run of quotes, then the value, then only quotes: after the removed keys the part no longer starts with the key, and the value is the slice of the part between the two quote runs |
| UploadList.UnkeyedFieldEmpty | src/gui/upload.rs:445-460 | a field stays empty unless some part carries its key |
| UploadList.LastKeyWins | src/gui/upload.rs:449-460 | when a key occurs in several parts, the last one decides |
| UploadList.ParseRendered | src/gui/upload.rs:449-460 | a line laid out as `local='…', remote='…', status='…', msg='…'` parses back to its four values |
| UploadList.BodyAfterLabel | src/gui/upload.rs:436-440 | the cards read what follows the first colon, trimmed |
| UploadList.FailedListingHeading | src/gui/upload.rs:436-443 | the heading of a failed listing yields no card |
| UploadList.CardsWhere | src/gui/upload.rs:432-444 | cards are numbered from one in line order, and each is for an accepted line |
| UploadList.Cards | src/gui/upload.rs:433-443 | every card's line passes the search and has a non-empty body |
| UploadList.CardsComplete | src/gui/upload.rs:433-444 | every line that passes the search with a non-empty body gets a card |
| UploadList.View | src/gui/upload.rs:423-495 | the loading message exactly when the trimmed list is `Loading...`; otherwise the cards, or the no-uploads notice when there are none |
| UploadList.StatusBadge | src/gui/upload.rs:473-479 | done exactly when the status mentions success or completed, ignoring case; broken exactly when it does not but mentions failed or error |
| UploadList.HighlightField | src/gui/upload.rs:506-530 | the pieces spell the text; a mark exactly when the search is non-empty and occurs ignoring case; the marked piece equals the search ignoring case at its first occurrence |
| History.ParseLinesMembers | src/gui/list.rs:96-109 | a record is read exactly when some non-blank line of the file decodes to it |
| History.InsertNewest | src/gui/list.rs:111 | inserting keeps newest-first order and adds exactly the new record |
| History.SortNewest | src/gui/list.rs:111 | the sort returns a permutation ordered by non-increasing timestamp |
| History.LoadRecords | src/gui/list.rs:87-119 | a missing or unreadable file gives no records; otherwise a newest-first permutation of the decoded lines |
| History.Shown | src/gui/list.rs:206-223 | every shown index is a record matching the search case-insensitively on paths, status and message, or exactly on the hash |
| History.ShownReversed | src/gui/list.rs:220-223 | sort order 1 shows exactly the reverse of the filtered newest-first list |
| History.ShownComplete | src/gui/list.rs:209-223 | every matching record is shown, in both orders |
| History.EmptySearchShowsAll | src/gui/list.rs:209 | an empty search shows every record in list order |
| History.ShownInTimeOrder | src/gui/list.rs:206-223 | shown newest first the timestamps never increase; with order 1 they never decrease |
| History.View | src/gui/list.rs:188-230 | the loading message exactly while loading; no-uploads exactly for an empty list; otherwise the shown entries, or the no-match notice when none match |
| History.ForceRefresh | src/gui/list.rs:72-76 | the refresh button marks a load pending, so a refresh is due |
| History.Reload | src/gui/list.rs:51-68 | a finished load clears the pending flag and holds newest-first records |
| History.RefreshShowsLoading | src/gui/list.rs:72-76 | after the refresh button the list shows the loading message |
| History.ShortHash | src/gui/list.rs:281-285 | a hash longer than 16 becomes its first 8 characters, `...` and its last 8, length 19; a shorter one is unchanged |
| History.ShortHashIdempotent | src/gui/list.rs:281-285 | shortening a shortened hash changes nothing |
| History.StatusBadge | src/gui/list.rs:250-256 | done exactly when the status contains success ignoring case; broken exactly when it does not but mentions failed or error |
| History.HiddenMiddleHighlights | src/gui/list.rs:412-413 | a search for the hidden middle of a long hash still highlights the shortened hash |
| Link.FileChoices | src/gui/link.rs:108-115 | every offered upload's remote path contains the typed name ignoring case; an empty name offers all |
| Link.FileChoicesSpec | src/gui/link.rs:108-115 | the choices are exactly the uploads whose remote path contains the name ignoring case, each once and in list order |
| Link.NoMatchNoticeSpec | src/gui/link.rs:117-118 | the "No files matching" notice shows exactly when no remote path contains the name |
| Link.GateOrWarning | src/gui/link.rs:180-193 | while idle, a non-blank name either enables the button or shows the not-found warning, never both |
| Link.PickedFileEnables | src/gui/link.rs:180-186 | clicking an offered upload whose path has no surrounding whitespace enables the button |
| Link.CreateArgs | src/gui/link.rs:212-238 | `create-public-link` and the trimmed name come first; `--api url` comes last; two more arguments for a non-blank title and two for a non-blank description |
| Link.CreateArgsRead | src/gui/link.rs:218-238 | the command reads back `--title` only when the trimmed title is non-empty, `--description` likewise, and always the endpoint |
| Link.DirectOf | src/gui/link.rs:273-278 | a line offers a direct link exactly when, trimmed, it starts `https://`, contains `publicDownload` and lacks `preview=true`; the link is the trimmed line |
| Link.PreviewOf | src/gui/link.rs:273-283 | a line offers a preview link exactly when, trimmed, it starts `https://` and contains both `publicDownload` and `preview=true`; the link is the trimmed line |
| Link.HashOf | src/gui/link.rs:286-298 | a stored hash is non-empty and holds no whitespace, `&`, backtick, quote, `)` or `]` |
| Link.HashTrimIsNoop | src/gui/link.rs:289-295 | the trailing trim after the cut never removes anything |
| Link.HashOfLine | src/gui/link.rs:286-298 | on a trimmed line with the download query, the hash is the text after the first `hash=` up to the first stop character |
| Link.ScanKeepsLast | src/gui/link.rs:272-301 | the scan keeps, for each of the three, what the last line offering one gave |
| Link.ScanFindsLinks | src/gui/link.rs:272-301 | the direct link found lacks `preview=true`, the preview link has it, and the hash has no stop character |
| Link.Scan | src/gui/link.rs:272-301 | the scan reads the output lines one at a time; its result is given by `Link.ScanKeepsLast` |
| Link.FallbackOf | src/gui/link.rs:322-326 | a fallback link starts `https://` and holds no whitespace |
| Link.FallbackOfSpec | src/gui/link.rs:322-326 | a line offers a fallback link exactly when it contains `https://` and `pipenetwork.com` and some whitespace follows the first `https://`; the link is the slice from that `https://` up to the next whitespace character |
| Link.FallbackOfParts | src/gui/link.rs:322-326 | text with no `h` before a whitespace-free link that starts `https://` and names the host, followed by whitespace, offers exactly that link |
| Link.Fallback | src/gui/link.rs:321-342 | the first line offering a fallback link decides; there is none exactly when no line offers one |
| Link.StartCreate | src/gui/link.rs:196-208 | the click sets the creating message, clears earlier links and marks the panel busy |
| Link.Finish | src/gui/link.rs:247-380 | processing ends on every path; a failed exit, a wait error and a start error each set their ❌ text and leave the links alone; success stores both links or the fallback, with the ✅ texts |
| Link.FinishWithBothLinks | src/gui/link.rs:303-317 | with both links found they are stored with the hash, or an empty hash |
| Link.FinishFallback | src/gui/link.rs:318-352 | lacking one link, the fallback is stored as both when a line offers it; otherwise the status says the command executed and no links are stored |
| LinkExamples.ScanExample | src/gui/link.rs:272-301 | the direct line and the `&preview=true` line give the direct link, the preview link and the hash `abc123` |
| LinkExamples.FallbackExample | src/gui/link.rs:322-326 | a sentence with a `https://…pipenetwork.com/f` link followed by a space offers that link |
| LinkExamples.QuotedHashExample | src/gui/link.rs:289-298 | `hash=abc123")` gives `abc123` |
| Wallet.FilterNumeric | src/gui/wallet.rs:41-46 | only ASCII digits and dots remain |
| Wallet.FilterNumericSpec | src/gui/wallet.rs:41-46 | the filter keeps exactly the digits and dots, each once and in order, and is idempotent |
| Wallet.TaggedValue | src/gui/wallet.rs:69-75 | a line yields a value exactly when it starts with the tag |
| Wallet.LastTagged | src/gui/wallet.rs:65-76 | the default when no line has the tag; otherwise the trimmed remainder of the last tagged line |
| Wallet.CheckSol | src/gui/wallet.rs:65-76 | address from the last `Pubkey:` line and balance from the last `SOL:` line, `-` when missing or when the command cannot start |
| Wallet.CheckToken | src/gui/wallet.rs:84-95 | balance from the last `UI:` line, `-` by default; mint from the last `Mint:` line, the PIPE mint by default |
| Wallet.UsageReport | src/gui/wallet.rs:114-128 | a command that cannot start gives `No usage data.` |
| Wallet.UsageReportLines | src/gui/wallet.rs:114-128 | for LF or CRLF output, the report reads back as exactly the output lines that are not blank and hold none of the four notices, in order |
| Wallet.UsageSectionsPartition | src/gui/wallet.rs:362-397 | the cards' lines are the report's non-blank, non-header lines in order, and no card is empty |
| Wallet.UsageSections | src/gui/wallet.rs:362-397 | only the first card can lack a heading; `WalletCards.UsageSectionsByHeader` ties every card to the header line that opened it |
| Wallet.HeadingText | src/gui/wallet.rs:374-388 | the card title is empty exactly for the untitled card before any header; `Wallet.HeadingRoundTrip` ties every other title to its header |
| Wallet.HeadingRoundTrip | src/gui/wallet.rs:369-388 | a card title followed by a colon is read as the same header that started the card |
| WalletCards.LastHeader | src/gui/wallet.rs:368-389 | the index of the last header line, holding a header with none after it, and none exactly when no line is a header |
| WalletCards.PlacedAt | src/gui/wallet.rs:368-392 | the k-th placed line is the k-th body line of the report, placed under the last header line before it |
| WalletCards.SameHeaderIffNoneBetween | src/gui/wallet.rs:368-392 | two positions lie under the same last header line exactly when no header line lies between them |
| WalletCards.BodiesShareHeaderIffNoneBetween | src/gui/wallet.rs:368-392 | two body lines of the report are placed under the same header line exactly when no header line lies between them |
| WalletCards.GroupMembers | src/gui/wallet.rs:368-392 | each group holds exactly the body lines placed under its header line, in order |
| WalletCards.GroupsIncrease | src/gui/wallet.rs:368-392 | the groups' header lines strictly increase, so no two cards come from the same header line |
| WalletCards.UsageSectionsByHeader | src/gui/wallet.rs:362-397 | the cards are the groups of body lines by the header line they follow, each titled by the heading that header line gives, or untitled before any header |
| WalletCards.TwoCards | src/gui/wallet.rs:368-397 | two headers each followed by one body line give two cards, each holding its line under its header's title |
| WalletCards.CardsExample | src/gui/wallet.rs:368-397 | `Storage (Uploads):`, `a`, `Total:`, `b` shows a storage card holding `a` and a total card holding `b` |
| Wallet.ActionArgs | src/gui/wallet.rs:133-188 | the argument vectors of the swap and the two withdrawals |
| Wallet.ActionResult | src/gui/wallet.rs:141-186 | the fixed failure text when the command cannot start; otherwise at most the output's length |
| Wallet.ActionResultOfOutput | src/gui/wallet.rs:142-145 | a started command's result is its stdout with only surrounding whitespace removed, whatever its exit code |
| LocalCrypt.OutputName | src/gui/localencdec.rs:60-66 | encrypting appends `.enc`; decrypting a `.enc` name removes every trailing `.enc`; otherwise `decrypted_` is prefixed |
| LocalCrypt.OutputNameRoundTrip | src/gui/localencdec.rs:60-66 | decrypting the name proposed for encryption gives the original back exactly when it does not end in `.enc` |
| LocalCrypt.CanProcess | src/gui/localencdec.rs:92-96 | the button is enabled exactly when nothing runs and the input, folder, file name and password are all non-empty |
| LocalCrypt.ProcessGate | src/gui/localencdec.rs:92-104 | while idle the button is enabled exactly when its click starts a run, so the required-fields message is not reachable through the button; a started run disables it |
| LocalCrypt.CryptArgs | src/gui/localencdec.rs:130-146 | `encrypt-local` or `decrypt-local` by mode, then input, output path, `--password`, password |
| LocalCrypt.Start | src/gui/localencdec.rs:100-118 | a missing field only sets the required-fields message; otherwise the panel is busy, not yet successful, remembers the output path and shows the processing header |
| LocalCrypt.Finish | src/gui/localencdec.rs:152-165 | the thread only appends to the status |
| LocalCrypt.Outcome | src/gui/localencdec.rs:155-164 | success appends the completion line and the reminder; a failure appends `❌ Process failed: ` and stderr, a start failure `❌ Failed to run CLI: ` and the error, each ending in a newline |
| LocalCrypt.Poll | src/gui/localencdec.rs:170-176 | a busy panel stops being busy exactly when the status holds the completion text or ❌ |
| LocalCrypt.OutcomeMarks | src/gui/localencdec.rs:155-164 | success appends the completion text and holds ✅; a failure starts with ❌ and holds no ✅ |
| LocalCrypt.PollAfterFinish | src/gui/localencdec.rs:152-176 | the first poll after the thread ends clears the busy flag, and success is recorded exactly when the command succeeded |
| Login.LoginArgs | src/gui/login.rs:87-94 | six arguments, `login` and the user name first |
| Login.LoginArgsRead | src/gui/login.rs:87-94 | the command reads back the endpoint and the password given |
| Login.CanLogin | src/gui/login.rs:63 | the button is enabled exactly when no login runs and both the user name and the password are non-empty |
| Login.StartLogin | src/gui/login.rs:74-78 | the click marks a login as running |
| Login.ResultText | src/gui/login.rs:96-105 | the success text, `❌ Login failed: ` and stderr, or `❌ Failed to run CLI: ` and the error |
| Login.FinishLogin | src/gui/login.rs:107-111 | the result replaces the status and the loading flag is cleared |
| Login.ResultMarksSuccess | src/gui/login.rs:96-105 | the status starts with ✅ exactly when the login succeeded |
| Login.FinishReenables | src/gui/login.rs:63-111 | the click disables the button, and once the login ends it is enabled again exactly when both fields are filled, whatever the result |
| Dispatch.Choose | src/main.rs:11-32 | without the window built always the command line; with it, the window exactly when there is no argument, or it is `gui` or `--gui`, or it starts with `-` and is not `--cli` |
| Dispatch.EmptyArgumentIsCommand | src/main.rs:16-19 | an empty first argument is taken as a command name |
| Dispatch.FlagOpensWindow | src/main.rs:22-26 | any flag other than `--cli` opens the window when it is built |

## Left out

- Drawing: layout, colours, fonts, scroll areas, spinners, repaint requests
  and the file-type icons of the file chooser (src/gui/link.rs:123-131).
  These are presentation only.
- Copy-to-clipboard buttons and their feedback timers. They are UI state
  driven by sleeps.
- The wallet's period selector, its first-open refresh and the usage-line
  highlighting. These are presentation only.
- Threads and locks. Each status is a plain value and each thread's work is
  one pure transition, so interleavings of a worker thread with the
  repaint loop are not modelled.
- The upload panel clears its processing flag right after starting the
  worker, not when the transfer ends (src/gui/upload.rs:331-335). No
  operation here depends on that flag.
- Starting, waiting for and reading processes. These become inputs: decoded
  chunks, output strings, exit success or a start-up error.
- `String::from_utf8_lossy`. Chunks are taken as already-decoded
  characters. A multi-byte character split across two reads is not
  modelled.
- Byte indices in slicing and `find` are taken as character indices. They
  agree on ASCII text.
- `to_lowercase` lowercases ASCII letters only.
- The regex classes `\d` and `\s` are ASCII digits and the Unicode
  White_Space set. The regex engine's Unicode-aware `\d` would also accept
  other decimal digits.
- The JSON decoding of history lines. It is a parameter: a partial function
  from a line to a record.
- The history file's location, environment variables, file dialogs, and
  `Path::join` or `file_name`. Their results are inputs.
- `format_size` and `format_file_size`, which compute in floating point
  with `{:.1}` formatting. Timestamps formatted by chrono, and `Instant`
  elapsed time, are also out; elapsed seconds are an input.
- The panel switch in `src/gui/mod.rs`, `src/gui/utils.rs` and `build.rs`.
  They contain no logic of the kind modelled here.
- The mode selectors are modelled as 0 and 1. The encrypt/decrypt panel
  treats any value other than 0 as decrypting, as the code does.
- Wallet.UsageReportLines: not promised when a line of the output still
  ends in a carriage return after `lines()`. That is a line ending in
  `\r\r\n`, or a last line ending in `\r` with no line feed. Reading the
  joined report back would strip the first kind of carriage return.
- Wallet.CheckSol: the contract is stated through `LastTagged`, whose own
  contract gives the value of the last tagged line. It is not restated
  per field.
- Wallet.CheckToken: stated through `LastTagged` in the same way.

## Behaviour of the code worth knowing

- The splitter does not treat CRLF as one terminator. `a\r\n` read at once
  yields `a` and two empty lines (`LineSplitter.CrLfInOneRead`), and one
  more empty line when the pair is split between reads.
  Output therefore depends on where reads end
  (`LineSplitter.CrLfAcrossReads`).
- The splitter keeps an unterminated final piece for the next read. When
  the stream ends, that piece is dropped, not flushed
  (`LineSplitter.UnterminatedTailIsDropped`).
- A progress event leaves the status without a final newline. A plain line
  that follows is glued onto the progress line, and the next progress
  event removes both (`TransferStatus.PlainLineGluedToProgress`,
  `TransferStatus.PlainLineAfterProgressIsLost`).
- The decrypted name strips every trailing `.enc`, not just one
  (`LocalCrypt.OutputName`).
- The usage report is `No usage data.` only when the command cannot start.
  A command that runs but prints only notices gives an empty report.
- The usage card headings are written in the code with each emoji replaced
  by the characters its UTF-8 bytes give when read as Mac Roman.
  `Wallet.HeadingText` keeps those characters as written.
- The wallet runs `pipe` from the path, while the public-link panel runs
  the program's own executable. Both are the same `Cli.Run` input here.
- The history panel's badge treats only `success` as done. The upload
  list's badge also accepts `completed`.
