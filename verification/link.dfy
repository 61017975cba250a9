/** The public-link panel (src/gui/link.rs): choosing an uploaded file,
    the create button's gate, the `create-public-link` argument vector, and
    reading the direct link, the preview link and the download hash back
    from the command's output. */
module Link {
  import opened Options
  import opened Text
  import Seqs
  import Cli
  import History

  const HttpsPrefix := "https://"
  const DownloadMarker := "publicDownload"
  const PreviewMarker := "preview=true"
  const HashQuery := "publicDownload?hash="
  const HashKey := "hash="
  const HostName := "pipenetwork.com"

  // ---- choosing the remote file ----

  /** Whether an upload's remote path contains the name, ignoring case. */
  function NameMatch(name: string): History.Record -> bool
  {
    (rec: History.Record) => ContainsIgnoreCase(rec.remotePath, name)
  }

  /** The uploads offered under the name box: all of them for an empty
      name, otherwise those whose remote path contains the name ignoring
      case, in list order. */
  function FileChoices(records: seq<History.Record>, name: string): (r: seq<History.Record>)
    ensures |r| <= |records|
    ensures forall i :: 0 <= i < |r| ==> ContainsIgnoreCase(r[i].remotePath, name)
    ensures name == "" ==> r == records
  {
    if name == "" then
      assert forall i :: 0 <= i < |records| ==> OccursAt(ToLower(records[i].remotePath), ToLower(name), 0);
      records
    else Seqs.Filter(NameMatch(name), records)
  }

  /** The choices keep list order, and every matching upload is offered. */
  lemma FileChoicesSpec(records: seq<History.Record>, name: string)
    ensures Seqs.IsSubseq(FileChoices(records, name), records)
    ensures forall i :: 0 <= i < |records| && ContainsIgnoreCase(records[i].remotePath, name) ==>
      records[i] in FileChoices(records, name)
    ensures Seqs.IsSelection(FileChoices(records, name), NameMatch(name), records)
  {
    ChoicesFiltered(records, name);
    Seqs.FilterFacts(NameMatch(name), records);
  }

  /** The choices are the matching uploads, also for an empty name, which
      every path contains. */
  lemma ChoicesFiltered(records: seq<History.Record>, name: string)
    ensures FileChoices(records, name) == Seqs.Filter(NameMatch(name), records)
  {
    if name == "" {
      assert forall i :: 0 <= i < |records| ==> OccursAt(ToLower(records[i].remotePath), ToLower(name), 0);
      Seqs.FilterAllKept(NameMatch(name), records);
    }
  }

  /** The "No files matching" notice: there are uploads, a name is typed,
      and none matches. */
  predicate NoMatchNotice(records: seq<History.Record>, name: string)
  {
    records != [] && name != "" && FileChoices(records, name) == []
  }

  /** The notice is shown exactly when no upload's remote path contains
      the typed name. */
  lemma NoMatchNoticeSpec(records: seq<History.Record>, name: string)
    requires records != [] && name != ""
    ensures NoMatchNotice(records, name) <==>
      forall i :: 0 <= i < |records| ==> !ContainsIgnoreCase(records[i].remotePath, name)
  {
    FileChoicesSpec(records, name);
    if forall i :: 0 <= i < |records| ==> !ContainsIgnoreCase(records[i].remotePath, name) {
      Seqs.FilterNoneKept(NameMatch(name), records);
    }
  }

  // ---- the create button ----

  /** Some upload's remote path is exactly the trimmed name. */
  predicate NameKnown(records: seq<History.Record>, name: string)
  {
    exists i :: 0 <= i < |records| && records[i].remotePath == Trim(name)
  }

  predicate CanCreate(processing: bool, records: seq<History.Record>, name: string)
  {
    !processing && Trim(name) != "" && NameKnown(records, name)
  }

  /** The "File not found in uploads" warning. */
  predicate NotFoundWarning(records: seq<History.Record>, name: string)
  {
    Trim(name) != "" && !NameKnown(records, name)
  }

  /** While no link is being created, a non-blank name either enables the
      button or raises the warning, never both. */
  lemma GateOrWarning(records: seq<History.Record>, name: string)
    requires !AllWhitespace(name)
    ensures CanCreate(false, records, name) != NotFoundWarning(records, name)
  {
    TrimBlank(name);
  }

  /** Clicking an offered upload whose path has no surrounding whitespace
      enables the button while nothing is running. */
  lemma PickedFileEnables(records: seq<History.Record>, i: nat)
    requires i < |records|
    requires records[i].remotePath != "" && !IsWhitespace(records[i].remotePath[0])
    requires !IsWhitespace(records[i].remotePath[|records[i].remotePath| - 1])
    ensures CanCreate(false, records, records[i].remotePath)
  {
    TrimNoop(records[i].remotePath);
  }

  // ---- the argument vector ----

  /** `create-public-link name [--title t] [--description d] --api url`,
      with name, title and description trimmed and the optional flags
      present only when their value is not empty. */
  function CreateArgs(name: string, title: string, description: string, api: string): (r: seq<string>)
    ensures |r| >= 4 && r[..2] == ["create-public-link", Trim(name)]
    ensures r[|r| - 2..] == ["--api", api]
    ensures |r| == 4 + (if Trim(title) != "" then 2 else 0) + (if Trim(description) != "" then 2 else 0)
  {
    ["create-public-link", Trim(name)] + CreateOptions(Trim(title), Trim(description), api)
  }

  /** The options after the name: the title and description pairs when
      they are given, then the endpoint. */
  function CreateOptions(t: string, d: string, api: string): (r: seq<string>)
    ensures |r| >= 2 && r[|r| - 2..] == ["--api", api]
    ensures |r| == 2 + (if t != "" then 2 else 0) + (if d != "" then 2 else 0)
  {
    OptionalPair("--title", t) + (OptionalPair("--description", d) + ["--api", api])
  }

  /** A flag and its value, left out when the value is empty. */
  function OptionalPair(flag: string, value: string): seq<string>
  {
    if value != "" then [flag, value] else []
  }

  /** The command reads back exactly the trimmed title and description
      given, and the endpoint. */
  lemma CreateArgsRead(name: string, title: string, description: string, api: string)
    ensures var opts := CreateArgs(name, title, description, api)[2..];
      && Cli.FlagValue(opts, "--title") == (if Trim(title) != "" then Some(Trim(title)) else None)
      && Cli.FlagValue(opts, "--description") == (if Trim(description) != "" then Some(Trim(description)) else None)
      && Cli.FlagValue(opts, "--api") == Some(api)
  {
    assert CreateArgs(name, title, description, api)[2..] == CreateOptions(Trim(title), Trim(description), api);
    ReadOptions(Trim(title), Trim(description), api);
  }

  /** Reading the title, description and endpoint back from the options
      part of the command. */
  lemma ReadOptions(t: string, d: string, api: string)
    ensures var opts := CreateOptions(t, d, api);
      && Cli.FlagValue(opts, "--title") == (if t != "" then Some(t) else None)
      && Cli.FlagValue(opts, "--description") == (if d != "" then Some(d) else None)
      && Cli.FlagValue(opts, "--api") == Some(api)
  {
    var last := ["--api", api];
    var tail := OptionalPair("--description", d) + last;
    assert last == last + [];
    ReadPair("--title", t, tail, "--title");
    ReadPair("--title", t, tail, "--description");
    ReadPair("--title", t, tail, "--api");
    ReadPair("--description", d, last, "--title");
    ReadPair("--description", d, last, "--description");
    ReadPair("--description", d, last, "--api");
    Cli.FlagValueCons("--title", "--api", api, []);
    Cli.FlagValueCons("--description", "--api", api, []);
    Cli.FlagValueCons("--api", "--api", api, []);
  }

  /** An optional pair in front is read when it is present and names the
      flag; otherwise reading goes on behind it. */
  lemma ReadPair(name: string, value: string, rest: seq<string>, flag: string)
    ensures Cli.FlagValue(OptionalPair(name, value) + rest, flag) ==
      if value != "" && name == flag then Some(value) else Cli.FlagValue(rest, flag)
  {
    if value != "" {
      Cli.FlagValueCons(flag, name, value, rest);
    } else {
      assert OptionalPair(name, value) + rest == rest;
    }
  }

  // ---- reading the output ----

  predicate IsDirectLine(line: string)
  {
    StartsWith(line, HttpsPrefix) && Contains(line, DownloadMarker) && !Contains(line, PreviewMarker)
  }

  predicate IsPreviewLine(line: string)
  {
    StartsWith(line, HttpsPrefix) && Contains(line, DownloadMarker) && Contains(line, PreviewMarker)
  }

  /** The direct link a line of output offers: the trimmed line itself. */
  function DirectOf(raw: string): (r: Option<string>)
    ensures r.Some? <==> IsDirectLine(Trim(raw))
    ensures r.Some? ==> r.value == Trim(raw)
  {
    var line := Trim(raw);
    if IsDirectLine(line) then Some(line) else None
  }

  /** The preview (social media) link a line of output offers. */
  function PreviewOf(raw: string): (r: Option<string>)
    ensures r.Some? <==> IsPreviewLine(Trim(raw))
    ensures r.Some? ==> r.value == Trim(raw)
  {
    var line := Trim(raw);
    if IsPreviewLine(line) then Some(line) else None
  }

  /** A line without surrounding whitespace offers itself as the direct
      link when it is one. */
  lemma DirectOfLine(line: string)
    requires line != "" && !IsWhitespace(line[0]) && !IsWhitespace(line[|line| - 1])
    requires IsDirectLine(line)
    ensures DirectOf(line) == Some(line) && PreviewOf(line) == None
  {
    TrimNoop(line);
  }

  /** Likewise for the preview link. */
  lemma PreviewOfLine(line: string)
    requires line != "" && !IsWhitespace(line[0]) && !IsWhitespace(line[|line| - 1])
    requires IsPreviewLine(line)
    ensures PreviewOf(line) == Some(line) && DirectOf(line) == None
  {
    TrimNoop(line);
  }

  /** Where a hash ends: whitespace, `&`, a backtick, a quote, `)` or `]`. */
  predicate IsHashStop(c: char)
  {
    IsWhitespace(c) || c == '&' || c == '`' || c == '"' || c == '\'' || c == ')' || c == ']'
  }

  /** The characters then trimmed from the end of the hash. */
  predicate IsHashTrail(c: char)
  {
    c == '`' || c == '"' || c == '\'' || c == ')' || c == ']' || c == '\n' || c == '\r'
  }

  /** The text after the first `hash=` of the line, up to the first stop
      character. */
  function HashPart(line: string): (r: Option<string>)
    ensures r.Some? ==> forall i :: 0 <= i < |r.value| ==> !IsHashStop(r.value[i])
  {
    match Find(line, HashKey)
    case None => None
    case Some(at) =>
      var part := line[at + |HashKey|..];
      match FirstWhere(part, IsHashStop)
      case Some(end) => Some(part[..end])
      case None => Some(part)
  }

  /** The download hash a line of output offers: on a trimmed line holding
      `publicDownload?hash=`, the text after its first `hash=` up to a stop
      character, with trailing quotes and brackets trimmed, when that is
      not empty. */
  function HashOf(raw: string): (r: Option<string>)
    ensures r.Some? ==> r.value != "" && forall i :: 0 <= i < |r.value| ==> !IsHashStop(r.value[i])
  {
    var line := Trim(raw);
    if !Contains(line, HashQuery) then None
    else match HashPart(line)
      case None => None
      case Some(clean) =>
        var cleaned := TrimEndWhere(clean, IsHashTrail);
        if cleaned == "" then None else Some(cleaned)
  }

  /** The trailing trim after the cut never removes anything: every
      character it would trim already stops the hash. */
  lemma HashTrimIsNoop(line: string)
    requires HashPart(line).Some?
    ensures TrimEndWhere(HashPart(line).value, IsHashTrail) == HashPart(line).value
  {
    var clean := HashPart(line).value;
    assert forall i :: 0 <= i < |clean| ==> !IsHashTrail(clean[i]);
    TrimEndWhereNoop(clean, IsHashTrail);
  }

  /** A trimmed line `p + "hash=" + h + rest` with no earlier `hash=`
      yields `h` when `h` is a non-empty run of non-stop characters and
      `rest` is empty or starts with a stop character. */
  lemma HashOfLine(line: string, p: string, h: string, rest: string)
    requires line == p + HashKey + h + rest
    requires !IsWhitespace(line[0]) && !IsWhitespace(line[|line| - 1])
    requires Contains(line, HashQuery)
    requires forall j :: 0 <= j < |p| ==> !OccursAt(line, HashKey, j)
    requires h != "" && forall i :: 0 <= i < |h| ==> !IsHashStop(h[i])
    requires rest == "" || IsHashStop(rest[0])
    ensures HashOf(line) == Some(h)
  {
    TrimNoop(line);
    HashPartOf(line, p, h, rest);
    TrimEndWhereNoop(h, IsHashTrail);
  }

  lemma HashPartOf(line: string, p: string, h: string, rest: string)
    requires line == p + HashKey + h + rest
    requires forall j :: 0 <= j < |p| ==> !OccursAt(line, HashKey, j)
    requires forall i :: 0 <= i < |h| ==> !IsHashStop(h[i])
    requires rest == "" || IsHashStop(rest[0])
    ensures HashPart(line) == Some(h)
  {
    assert line[|p|..|p| + |HashKey|] == HashKey;
    FindFirst(line, HashKey, |p|);
    var part := line[|p| + |HashKey|..];
    assert part == h + rest;
    CutAtStop(h, rest);
    match FirstWhere(part, IsHashStop)
    case Some(end) => assert part[..end] == h;
    case None => assert part == h;
  }

  lemma CutAtStop(h: string, rest: string)
    requires forall i :: 0 <= i < |h| ==> !IsHashStop(h[i])
    requires rest == "" || IsHashStop(rest[0])
    ensures match FirstWhere(h + rest, IsHashStop)
      case Some(end) => end == |h| && (h + rest)[..end] == h
      case None => rest == ""
  {
    var part := h + rest;
    if rest != "" {
      assert part[|h|] == rest[0];
      FirstWhereIs(part, IsHashStop, |h|);
      assert part[..|h|] == h;
    } else {
      assert part == h;
    }
  }

  /** What the scan has found so far. */
  datatype Found = Found(direct: Option<string>, preview: Option<string>, hash: Option<string>)

  /** A later hit replaces an earlier one. */
  function Latest(earlier: Option<string>, later: Option<string>): (r: Option<string>)
    ensures r == (if later.Some? then later else earlier)
  {
    if later.Some? then later else earlier
  }

  function ScanLine(found: Found, raw: string): Found
  {
    Found(Latest(found.direct, DirectOf(raw)), Latest(found.preview, PreviewOf(raw)), Latest(found.hash, HashOf(raw)))
  }

  /** The scan over the combined output's lines, one line at a time. */
  function Scan(lines: seq<string>): Found
    decreases |lines|
  {
    if |lines| == 0 then Found(None, None, None)
    else ScanLine(Scan(lines[..|lines| - 1]), lines[|lines| - 1])
  }

  /** Two lines are scanned the first and then the second. */
  lemma ScanTwo(a: string, b: string)
    ensures Scan([a, b]) == ScanLine(ScanLine(Found(None, None, None), a), b)
  {
    assert [a][..0] == [];
    assert Scan([a]) == ScanLine(Found(None, None, None), a);
    assert [a, b][..1] == [a];
  }

  /** The scan keeps, for each of the three, what the LAST line offering
      one offered. */
  lemma {:induction false} ScanKeepsLast(lines: seq<string>)
    ensures Scan(lines) == Found(Seqs.LastSome(DirectOf, lines), Seqs.LastSome(PreviewOf, lines), Seqs.LastSome(HashOf, lines))
    decreases |lines|
  {
    if |lines| > 0 {
      ScanKeepsLast(lines[..|lines| - 1]);
    }
  }

  /** The direct link found lacks `preview=true`, the preview link has
      it, and both are whole trimmed lines starting `https://`. */
  lemma ScanFindsLinks(lines: seq<string>)
    ensures var f := Scan(lines);
      && (f.direct.Some? ==> IsDirectLine(f.direct.value) && exists i :: 0 <= i < |lines| && f.direct.value == Trim(lines[i]))
      && (f.preview.Some? ==> IsPreviewLine(f.preview.value) && exists i :: 0 <= i < |lines| && f.preview.value == Trim(lines[i]))
      && (f.hash.Some? ==> f.hash.value != "")
  {
    ScanKeepsLast(lines);
    LastDirect(lines);
    LastPreview(lines);
  }

  lemma LastDirect(lines: seq<string>)
    ensures var d := Seqs.LastSome(DirectOf, lines);
      d.Some? ==> IsDirectLine(d.value) && exists i :: 0 <= i < |lines| && d.value == Trim(lines[i])
  {
    var d := Seqs.LastSome(DirectOf, lines);
    if d.Some? {
      var i :| 0 <= i < |lines| && DirectOf(lines[i]) == d;
      assert d.value == Trim(lines[i]);
    }
  }

  lemma LastPreview(lines: seq<string>)
    ensures var p := Seqs.LastSome(PreviewOf, lines);
      p.Some? ==> IsPreviewLine(p.value) && exists i :: 0 <= i < |lines| && p.value == Trim(lines[i])
  {
    var p := Seqs.LastSome(PreviewOf, lines);
    if p.Some? {
      var i :| 0 <= i < |lines| && PreviewOf(lines[i]) == p;
      assert p.value == Trim(lines[i]);
    }
  }

  /** The fallback link a line offers: on a line holding `https://` and
      the host name, the text from the first `https://` up to the next
      whitespace, when there is whitespace after it. */
  function FallbackOf(line: string): (r: Option<string>)
    ensures r.Some? ==> StartsWith(r.value, HttpsPrefix)
    ensures r.Some? ==> forall i :: 0 <= i < |r.value| ==> !IsWhitespace(r.value[i])
  {
    if !(Contains(line, HttpsPrefix) && Contains(line, HostName)) then None
    else match Find(line, HttpsPrefix)
      case None => None
      case Some(start) =>
        assert StartsWith(line[start..], HttpsPrefix) by {
          assert line[start..][..|HttpsPrefix|] == line[start..start + |HttpsPrefix|];
        }
        UpToSpace(line[start..])
  }

  /** The link that starts `url`: the text up to its first whitespace,
      or nothing when no whitespace follows it. */
  function UpToSpace(url: string): (r: Option<string>)
    requires StartsWith(url, HttpsPrefix)
    ensures r.Some? ==> StartsWith(r.value, HttpsPrefix)
    ensures r.Some? ==> forall i :: 0 <= i < |r.value| ==> !IsWhitespace(r.value[i])
    ensures r.Some? <==> exists j :: 0 <= j < |url| && IsWhitespace(url[j])
    ensures r.Some? ==> |r.value| < |url| && r.value == url[..|r.value|] && IsWhitespace(url[|r.value|])
  {
    match FirstWhere(url, IsWhitespace)
    case None => None
    case Some(end) =>
      HttpsPrefixIsVisible();
      PrefixBeforeSpace(url, HttpsPrefix, end);
      Some(url[..end])
  }

  /** A line offers a fallback link exactly when it holds `https://` and
      the host name and some whitespace follows the first `https://`; the
      link is the text from that `https://` up to the first whitespace
      after it. */
  lemma FallbackOfSpec(line: string)
    ensures FallbackOf(line).Some? <==>
      Contains(line, HttpsPrefix) && Contains(line, HostName) &&
      exists j :: Find(line, HttpsPrefix).value <= j < |line| && IsWhitespace(line[j])
    ensures FallbackOf(line).Some? ==> Find(line, HttpsPrefix).Some?
    ensures FallbackOf(line).Some? && Find(line, HttpsPrefix).Some? ==>
      (var start, link := Find(line, HttpsPrefix).value, FallbackOf(line).value;
       && start + |link| < |line|
       && link == line[start..start + |link|]
       && IsWhitespace(line[start + |link|]))
  {
    if Contains(line, HttpsPrefix) && Contains(line, HostName) {
      var start := Find(line, HttpsPrefix).value;
      assert FallbackOf(line) == UpToSpace(line[start..]);
      SpaceInSuffix(line, start);
      if FallbackOf(line).Some? {
        SuffixPrefix(line, start, |FallbackOf(line).value|);
      }
    }
  }

  /** A line made of text without an `h`, a link holding the host name
      and no whitespace, and text starting with whitespace offers that
      link. */
  lemma FallbackOfParts(before: string, link: string, after: string)
    requires HttpsPrefix[0] !in before
    requires StartsWith(link, HttpsPrefix) && Contains(link, HostName)
    requires forall i :: 0 <= i < |link| ==> !IsWhitespace(link[i])
    requires |after| > 0 && IsWhitespace(after[0])
    ensures FallbackOf(before + link + after) == Some(link)
  {
    var line := before + link + after;
    FirstHttpsAt(before, link, after);
    HostInLine(before, link, after);
    assert line[|before|..] == link + after;
    LinkBeforeSpace(link, after);
  }

  /** The first `https://` of the line is where the link starts. */
  lemma FirstHttpsAt(before: string, link: string, after: string)
    requires HttpsPrefix[0] !in before && StartsWith(link, HttpsPrefix)
    ensures Find(before + link + after, HttpsPrefix) == Some(|before|)
  {
    var line := before + link + after;
    var n := |before|;
    assert line[n..n + |HttpsPrefix|] == link[..|HttpsPrefix|];
    forall j | 0 <= j < n ensures !OccursAt(line, HttpsPrefix, j) {
      assert line[j] == before[j];
      if j + |HttpsPrefix| <= |line| {
        assert line[j..j + |HttpsPrefix|][0] == line[j];
      }
    }
    FindFirst(line, HttpsPrefix, n);
  }

  /** The host name inside the link is inside the line. */
  lemma HostInLine(before: string, link: string, after: string)
    requires Contains(link, HostName)
    ensures Contains(before + link + after, HostName)
  {
    var line := before + link + after;
    var k :| 0 <= k <= |link| && OccursAt(link, HostName, k);
    var at := |before| + k;
    assert line[at..at + |HostName|] == link[k..k + |HostName|];
    assert OccursAt(line, HostName, at);
  }

  /** A link without whitespace followed by whitespace is read up to it. */
  lemma LinkBeforeSpace(link: string, after: string)
    requires StartsWith(link, HttpsPrefix)
    requires forall i :: 0 <= i < |link| ==> !IsWhitespace(link[i])
    requires |after| > 0 && IsWhitespace(after[0])
    ensures StartsWith(link + after, HttpsPrefix)
    ensures UpToSpace(link + after) == Some(link)
  {
    var url := link + after;
    assert url[..|HttpsPrefix|] == link[..|HttpsPrefix|];
    FirstWhereIs(url, IsWhitespace, |link|);
    assert url[..|link|] == link;
  }

  /** Whitespace in a suffix is whitespace in the text at or after the
      suffix's start. */
  lemma SpaceInSuffix(line: string, start: nat)
    requires start <= |line|
    ensures (exists j :: 0 <= j < |line[start..]| && IsWhitespace(line[start..][j])) <==>
      (exists j :: start <= j < |line| && IsWhitespace(line[j]))
  {
    if exists j :: start <= j < |line| && IsWhitespace(line[j]) {
      var j :| start <= j < |line| && IsWhitespace(line[j]);
      assert line[start..][j - start] == line[j];
    }
  }

  /** The first `n` characters of a suffix, and the one after them. */
  lemma SuffixPrefix(line: string, start: nat, n: nat)
    requires start + n < |line|
    ensures line[start..][..n] == line[start..start + n]
    ensures line[start..][n] == line[start + n]
  {
  }

  /** `https://` holds no whitespace. */
  lemma HttpsPrefixIsVisible()
    ensures forall i :: 0 <= i < |HttpsPrefix| ==> !IsWhitespace(HttpsPrefix[i])
  {
  }

  /** Text that starts with a visible prefix has its first whitespace
      after that prefix. */
  lemma PrefixBeforeSpace(url: string, pre: string, end: nat)
    requires StartsWith(url, pre) && end < |url| && IsWhitespace(url[end])
    requires forall i :: 0 <= i < |pre| ==> !IsWhitespace(pre[i])
    ensures |pre| <= end && StartsWith(url[..end], pre)
  {
    assert forall i :: 0 <= i < |pre| ==> url[i] == pre[i];
    assert url[..end][..|pre|] == pre;
  }

  /** The first line offering a fallback link wins. */
  function Fallback(lines: seq<string>): (r: Option<string>)
    ensures r.None? <==> forall i :: 0 <= i < |lines| ==> FallbackOf(lines[i]).None?
    ensures r.Some? ==> StartsWith(r.value, HttpsPrefix)
  {
    Seqs.FirstSome(FallbackOf, lines)
  }

  // ---- the panel state and the command's outcome ----

  datatype Links = Links(direct: string, preview: string, hash: string)

  datatype LinkState = LinkState(status: string, processing: bool, links: Option<Links>)

  /** How the command ended: it exited, waiting for it failed, or it could
      not be started. */
  datatype LinkRun =
    | Exited(success: bool, stdout: string, stderr: string)
    | WaitFailed(error: string)
    | SpawnFailed(error: string)

  const CreatingText := "Creating public link..."
  const CreatedText := "✅ Public link created successfully!\n\n"
  const ExecutedText := "✅ Command executed successfully!\n\n"
  const FailedText := "❌ Failed to create public link:\n\n"
  const WaitFailedText := "❌ Failed to wait for command: "
  const SpawnFailedText := "❌ Failed to run pipe command: "

  /** The click: status set to the creating message, earlier links
      cleared, and the panel marked busy. */
  function StartCreate(st: LinkState): (r: LinkState)
    ensures r.processing && r.links.None? && r.status == CreatingText
  {
    LinkState(CreatingText, true, None)
  }

  function Combined(run: LinkRun): string
    requires run.Exited?
  {
    run.stdout + "\n" + run.stderr
  }

  /** The state the command thread leaves. */
  function Finish(st: LinkState, run: LinkRun): (r: LinkState)
    ensures !r.processing
    ensures run.Exited? && !run.success ==> r.status == FailedText + run.stdout + "\n" + run.stderr && r.links == st.links
    ensures run.WaitFailed? ==> r.status == WaitFailedText + run.error && r.links == st.links
    ensures run.SpawnFailed? ==> r.status == SpawnFailedText + run.error && r.links == st.links
    ensures run.Exited? && run.success ==>
      || (r.status == CreatedText + Combined(run) && r.links.Some?)
      || (r.status == ExecutedText + Combined(run) && r.links == st.links)
  {
    match run
    case SpawnFailed(e) => LinkState(SpawnFailedText + e, false, st.links)
    case WaitFailed(e) => LinkState(WaitFailedText + e, false, st.links)
    case Exited(success, out, err) =>
      if !success then LinkState(FailedText + out + "\n" + err, false, st.links)
      else
        var combined := out + "\n" + err;
        var lines := Lines(combined);
        var f := Scan(lines);
        var hash := f.hash.GetOr("");
        if f.direct.Some? && f.preview.Some? then
          LinkState(CreatedText + combined, false, Some(Links(f.direct.value, f.preview.value, hash)))
        else match Fallback(lines)
          case Some(link) => LinkState(CreatedText + combined, false, Some(Links(link, link, hash)))
          case None => LinkState(ExecutedText + combined, false, st.links)
  }

  /** A successful run whose output offers both links stores them with the
      last hash found (or none). */
  lemma FinishWithBothLinks(st: LinkState, out: string, err: string)
    requires var f := Scan(Lines(out + "\n" + err)); f.direct.Some? && f.preview.Some?
    ensures var f := Scan(Lines(out + "\n" + err));
      Finish(st, Exited(true, out, err)).links == Some(Links(f.direct.value, f.preview.value, f.hash.GetOr("")))
  {
  }

  /** A successful run lacking one of the two links falls back to the
      first `pipenetwork.com` link for both; with none of those, the
      stored links stay as they were and the status says only that the
      command ran. */
  lemma FinishFallback(st: LinkState, out: string, err: string)
    requires var f := Scan(Lines(out + "\n" + err)); f.direct.None? || f.preview.None?
    ensures var lines := Lines(out + "\n" + err);
      var r := Finish(st, Exited(true, out, err));
      match Fallback(lines)
      case Some(link) => r.links.Some? && r.links.value.direct == link == r.links.value.preview
      case None => r.links == st.links && StartsWith(r.status, ExecutedText)
  {
    var combined := out + "\n" + err;
    assert (ExecutedText + combined)[..|ExecutedText|] == ExecutedText;
  }
}
