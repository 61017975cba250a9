/** The upload list in the right column of the upload/download panel
    (src/gui/upload.rs): the text `pipe list-uploads` printed is read line
    by line into cards, filtered by the search box, and the search text is
    highlighted inside the card fields. */
module UploadList {
  import opened Options
  import opened Text
  import opened Cli
  import Seqs

  /** What the list holds before the first listing arrives. */
  const LoadingText: string := "Loading..."
  const ListFailurePrefix: string := "Failed to list uploads:\n"
  const ListSpawnPrefix: string := "Failed to run CLI: "

  /** The text the list holds after a `list-uploads` run: the standard
      output on success, otherwise a failure heading and the error. */
  function ListResult(run: Run): (r: string)
    ensures run.Finished? && run.success ==> r == run.stdout
    ensures run.Finished? && !run.success ==> StartsWith(r, ListFailurePrefix) && r[|ListFailurePrefix|..] == run.stderr
    ensures run.SpawnError? ==> StartsWith(r, ListSpawnPrefix) && r[|ListSpawnPrefix|..] == run.error
  {
    match run
    case Finished(ok, out, err) =>
      if ok then out
      else assert (ListFailurePrefix + err)[..|ListFailurePrefix|] == ListFailurePrefix; ListFailurePrefix + err
    case SpawnError(e) =>
      assert (ListSpawnPrefix + e)[..|ListSpawnPrefix|] == ListSpawnPrefix; ListSpawnPrefix + e
  }

  /** The list is fetched again when more than ten seconds have passed
      since the last fetch or when it still shows the loading text. */
  predicate RefreshNeeded(elapsedSecs: nat, uploads: string)
  {
    elapsedSecs > 10 || Trim(uploads) == LoadingText
  }

  /** The refresh rule across a fetch. The refresh button moves the last
      fetch eleven seconds into the past, so the next frame fetches
      whatever the list holds. A fetch that fails leaves a failure text,
      never the loading text, so the next fetch waits the full ten
      seconds. */
  lemma RefreshCycle(sinceClick: nat, uploads: string, run: Run, secs: nat)
    ensures RefreshNeeded(11 + sinceClick, uploads)
    ensures !(run.Finished? && run.success) ==> (RefreshNeeded(secs, ListResult(run)) <==> secs > 10)
  {
    if !(run.Finished? && run.success) {
      var r := ListResult(run);
      assert r[0] == 'F';
      TrimKeepsFirst(r);
      assert Trim(r)[0] != LoadingText[0];
    }
  }

  /** The fields a card shows. */
  datatype Fields = Fields(local: string, remote: string, status: string, msg: string)

  const NoFields: Fields := Fields("", "", "", "")

  /** The keys a list line part can carry. */
  datatype Key = Local | Remote | Status | Msg

  function KeyName(k: Key): string
  {
    match k
    case Local => "local="
    case Remote => "remote="
    case Status => "status="
    case Msg => "msg="
  }

  function Get(f: Fields, k: Key): string
  {
    match k
    case Local => f.local
    case Remote => f.remote
    case Status => f.status
    case Msg => f.msg
  }

  function Set(f: Fields, k: Key, v: string): (r: Fields)
    ensures Get(r, k) == v
    ensures forall k' :: k' != k ==> Get(r, k') == Get(f, k')
  {
    match k
    case Local => f.(local := v)
    case Remote => f.(remote := v)
    case Status => f.(status := v)
    case Msg => f.(msg := v)
  }

  /** The key a trimmed part starts with, tried in the order the panel
      tries them. */
  function KeyOf(p: string): (r: Option<Key>)
    ensures r.Some? ==> StartsWith(p, KeyName(r.value))
  {
    if StartsWith(p, KeyName(Local)) then Some(Local)
    else if StartsWith(p, KeyName(Remote)) then Some(Remote)
    else if StartsWith(p, KeyName(Status)) then Some(Status)
    else if StartsWith(p, KeyName(Msg)) then Some(Msg)
    else None
  }

  /** The value a keyed part carries: every leading repetition of the key
      removed, then every leading and trailing single quote. */
  function FieldValue(p: string, key: string): (r: string)
    ensures |r| <= |p|
    ensures |r| == 0 || (r[0] != '\'' && r[|r| - 1] != '\'')
  {
    TrimMatchesChar(TrimStartMatches(p, key), '\'')
  }

  /** Where the key copies at the front of a part end. */
  function KeysEnd(p: string, key: string): (k: nat)
    ensures k <= |p|
  {
    |p| - |TrimStartMatches(p, key)|
  }

  /** Where the value starts: after the key copies and the quotes. */
  function ValueStart(p: string, key: string): (i: nat)
    ensures KeysEnd(p, key) <= i <= |p|
  {
    KeysEnd(p, key) + LeadingRun(p[KeysEnd(p, key)..], '\'')
  }

  /** Where a field value sits in its part: the part is key copies (as
      many as there are), then quotes, then the value, then nothing but
      quotes. */
  lemma FieldValueParts(p: string, key: string)
    ensures IsRepetition(p[..KeysEnd(p, key)], key)
    ensures |key| > 0 ==> !StartsWith(p[KeysEnd(p, key)..], key)
    ensures forall m :: KeysEnd(p, key) <= m < ValueStart(p, key) ==> p[m] == '\''
    ensures ValueStart(p, key) + |FieldValue(p, key)| <= |p|
    ensures FieldValue(p, key) == p[ValueStart(p, key)..ValueStart(p, key) + |FieldValue(p, key)|]
    ensures forall m :: ValueStart(p, key) + |FieldValue(p, key)| <= m < |p| ==> p[m] == '\''
  {
    KeysFirst(p, key);
    QuotesAround(p, key);
  }

  lemma KeysFirst(p: string, key: string)
    ensures IsRepetition(p[..KeysEnd(p, key)], key)
    ensures |key| > 0 ==> !StartsWith(p[KeysEnd(p, key)..], key)
  {
    KeysRepeat(p, key, KeysEnd(p, key));
    AfterKeys(p, key);
  }

  /** The key copies at the front are a repetition of the key. */
  lemma KeysRepeat(p: string, key: string, k: nat)
    requires k == |p| - |TrimStartMatches(p, key)|
    ensures IsRepetition(p[..k], key)
  {
    TrimStartMatchesRemoves(p, key);
  }

  lemma QuotesAround(p: string, key: string)
    ensures forall m :: KeysEnd(p, key) <= m < ValueStart(p, key) ==> p[m] == '\''
    ensures ValueStart(p, key) + |FieldValue(p, key)| <= |p|
    ensures FieldValue(p, key) == p[ValueStart(p, key)..ValueStart(p, key) + |FieldValue(p, key)|]
    ensures forall m :: ValueStart(p, key) + |FieldValue(p, key)| <= m < |p| ==> p[m] == '\''
  {
    AfterKeys(p, key);
    QuotedAt(p, KeysEnd(p, key), ValueStart(p, key), FieldValue(p, key));
  }

  /** What follows the key copies is what trimming them leaves. */
  lemma AfterKeys(p: string, key: string)
    ensures p[KeysEnd(p, key)..] == TrimStartMatches(p, key)
    ensures FieldValue(p, key) == TrimMatchesChar(p[KeysEnd(p, key)..], '\'')
  {
  }

  /** The value unquoted from the suffix at `k` starts at `i`, after the
      quotes there, and only quotes follow it. */
  lemma QuotedAt(p: string, k: nat, i: nat, v: string)
    requires k <= |p| && i == k + LeadingRun(p[k..], '\'') && v == TrimMatchesChar(p[k..], '\'')
    ensures forall m :: k <= m < i ==> p[m] == '\''
    ensures i + |v| <= |p| && v == p[i..i + |v|]
    ensures forall m :: i + |v| <= m < |p| ==> p[m] == '\''
  {
    var n, r := QuotedInSuffix(p, k);
  }

  /** The value unquoted from a suffix of `p` sits between runs of quotes
      in `p` itself, `k` places further on. */
  lemma QuotedInSuffix(p: string, k: nat) returns (n: nat, r: string)
    requires k <= |p|
    ensures n == LeadingRun(p[k..], '\'') && r == TrimMatchesChar(p[k..], '\'')
    ensures k + n + |r| <= |p| && r == p[k + n..k + n + |r|]
    ensures forall m :: k <= m < k + n ==> p[m] == '\''
    ensures forall m :: k + n + |r| <= m < |p| ==> p[m] == '\''
  {
    var rest := p[k..];
    n, r := UnquoteParts(rest);
    ShiftQuoted(p, k, rest, n, r);
  }

  /** Unquoting leaves a run of quotes, the value, then only quotes. */
  lemma UnquoteParts(rest: string) returns (n: nat, r: string)
    ensures n == LeadingRun(rest, '\'') && r == TrimMatchesChar(rest, '\'')
    ensures n + |r| <= |rest| && r == rest[n..n + |r|]
    ensures forall m :: 0 <= m < n ==> rest[m] == '\''
    ensures forall m :: n + |r| <= m < |rest| ==> rest[m] == '\''
  {
    n, r := LeadingRun(rest, '\''), TrimMatchesChar(rest, '\'');
    TrimMatchesCharSlice(rest, '\'');
  }

  /** Quotes, a value and quotes in a suffix are found `k` places further
      on in the whole. */
  lemma ShiftQuoted(p: string, k: nat, rest: string, n: nat, r: string)
    requires k <= |p| && rest == p[k..] && n + |r| <= |rest|
    requires forall m :: 0 <= m < n ==> rest[m] == '\''
    requires r == rest[n..n + |r|]
    requires forall m :: n + |r| <= m < |rest| ==> rest[m] == '\''
    ensures forall m :: k <= m < k + n ==> p[m] == '\''
    ensures r == p[k + n..k + n + |r|]
    ensures forall m :: k + n + |r| <= m < |p| ==> p[m] == '\''
  {
    assert forall m :: k <= m < |p| ==> p[m] == rest[m - k];
  }


  /** One trimmed comma-separated part: a keyed part sets its field, any
      other part changes nothing. */
  function ApplyPart(f: Fields, p: string): Fields
  {
    match KeyOf(p)
    case None => f
    case Some(k) => Set(f, k, FieldValue(p, KeyName(k)))
  }

  /** Each part trimmed. */
  function TrimAll(parts: seq<string>): (r: seq<string>)
    ensures |r| == |parts|
    ensures forall i :: 0 <= i < |r| ==> r[i] == Trim(parts[i])
  {
    seq(|parts|, i requires 0 <= i < |parts| => Trim(parts[i]))
  }

  /** The trimmed parts of a line applied in order, starting from empty
      fields. */
  function ParseParts(parts: seq<string>): Fields
    decreases |parts|
  {
    if |parts| == 0 then NoFields
    else ApplyPart(ParseParts(parts[..|parts| - 1]), parts[|parts| - 1])
  }

  /** The fields of a list line's body: its comma-separated parts. */
  function ParseFields(body: string): Fields
  {
    ParseParts(TrimAll(Split(body, ',')))
  }

  lemma ParseSnoc(init: seq<string>, last: string)
    ensures ParseParts(init + [last]) == ApplyPart(ParseParts(init), last)
  {
    assert (init + [last])[..|init|] == init;
  }

  /** A part sets the field its key names and leaves the others alone. */
  lemma ApplyPartGet(f: Fields, part: string, k: Key)
    ensures Get(ApplyPart(f, part), k) ==
      if KeyOf(part) == Some(k) then FieldValue(part, KeyName(k)) else Get(f, k)
  {
  }

  /** A field stays empty unless some part carries its key. */
  lemma {:induction false} UnkeyedFieldEmpty(parts: seq<string>, k: Key)
    requires forall j :: 0 <= j < |parts| ==> KeyOf(parts[j]) != Some(k)
    ensures Get(ParseParts(parts), k) == ""
    decreases |parts|
  {
    if |parts| > 0 {
      var init := parts[..|parts| - 1];
      var last := parts[|parts| - 1];
      assert parts == init + [last];
      ParseSnoc(init, last);
      ApplyPartGet(ParseParts(init), last, k);
      assert forall j :: 0 <= j < |init| ==> init[j] == parts[j];
      UnkeyedFieldEmpty(init, k);
    }
  }

  /** When a key occurs in several parts, the last one decides. */
  lemma {:induction false} LastKeyWins(parts: seq<string>, k: Key, i: nat)
    requires i < |parts| && KeyOf(parts[i]) == Some(k)
    requires forall j :: i < j < |parts| ==> KeyOf(parts[j]) != Some(k)
    ensures Get(ParseParts(parts), k) == FieldValue(parts[i], KeyName(k))
    decreases |parts|
  {
    var init := parts[..|parts| - 1];
    var last := parts[|parts| - 1];
    assert parts == init + [last];
    ParseSnoc(init, last);
    ApplyPartGet(ParseParts(init), last, k);
    if i < |parts| - 1 {
      assert forall j :: i < j < |init| ==> init[j] == parts[j];
      assert init[i] == parts[i];
      LastKeyWins(init, k, i);
    }
  }

  /** A part in the layout `key='value'`, as the list shows it. */
  function Part(k: Key, v: string): string
  {
    KeyName(k) + "'" + v + "'"
  }

  /** A value the layout carries unchanged: no comma, no quote at either
      end. */
  predicate Clean(v: string)
  {
    ',' !in v && (|v| == 0 || (v[0] != '\'' && v[|v| - 1] != '\''))
  }

  /** The four fields laid out as `local='…', remote='…', status='…',
      msg='…'`. */
  function RenderFields(f: Fields): string
  {
    Join([Part(Local, f.local), " " + Part(Remote, f.remote),
          " " + Part(Status, f.status), " " + Part(Msg, f.msg)], ",")
  }

  /** Parsing a laid-out line gives back the fields it was laid out
      from. */
  lemma ParseRendered(f: Fields)
    requires Clean(f.local) && Clean(f.remote) && Clean(f.status) && Clean(f.msg)
    ensures ParseFields(RenderFields(f)) == f
  {
    var trimmed := [Part(Local, f.local), Part(Remote, f.remote), Part(Status, f.status), Part(Msg, f.msg)];
    RenderedParts(f, trimmed);
    LaidOutParts(f, trimmed);
    ParseVia(RenderFields(f), trimmed, f);
  }

  /** The four laid-out parts, applied in order, give the fields back. */
  lemma LaidOutParts(f: Fields, trimmed: seq<string>)
    requires Clean(f.local) && Clean(f.remote) && Clean(f.status) && Clean(f.msg)
    requires trimmed == [Part(Local, f.local), Part(Remote, f.remote), Part(Status, f.status), Part(Msg, f.msg)]
    ensures ParseParts(trimmed) == f
  {
    PartParsed(Local, f.local);
    PartParsed(Remote, f.remote);
    PartParsed(Status, f.status);
    PartParsed(Msg, f.msg);
    FourParts(trimmed, f);
  }

  /** A line whose trimmed parts are `trimmed` parses as they do. */
  lemma ParseVia(line: string, trimmed: seq<string>, f: Fields)
    requires TrimAll(Split(line, ',')) == trimmed && ParseParts(trimmed) == f
    ensures ParseFields(line) == f
  {
  }

  /** The trimmed comma-separated parts of a laid-out line are the four
      parts. */
  lemma RenderedParts(f: Fields, trimmed: seq<string>)
    requires Clean(f.local) && Clean(f.remote) && Clean(f.status) && Clean(f.msg)
    requires trimmed == [Part(Local, f.local), Part(Remote, f.remote), Part(Status, f.status), Part(Msg, f.msg)]
    ensures TrimAll(Split(RenderFields(f), ',')) == trimmed
  {
    var parts := [Part(Local, f.local), " " + Part(Remote, f.remote),
                  " " + Part(Status, f.status), " " + Part(Msg, f.msg)];
    RenderedSplit(f, parts);
    PartEnds(Local, f.local);
    PartEnds(Remote, f.remote);
    PartEnds(Status, f.status);
    PartEnds(Msg, f.msg);
    SpacedPartsTrimmed(Part(Local, f.local), Part(Remote, f.remote), Part(Status, f.status), Part(Msg, f.msg));
  }

  lemma RenderedSplit(f: Fields, parts: seq<string>)
    requires Clean(f.local) && Clean(f.remote) && Clean(f.status) && Clean(f.msg)
    requires parts == [Part(Local, f.local), " " + Part(Remote, f.remote),
                       " " + Part(Status, f.status), " " + Part(Msg, f.msg)]
    ensures Split(RenderFields(f), ',') == parts
  {
    PartHasNoComma(Local, f.local, "");
    PartHasNoComma(Remote, f.remote, " ");
    PartHasNoComma(Status, f.status, " ");
    PartHasNoComma(Msg, f.msg, " ");
    assert "" + Part(Local, f.local) == parts[0];
    SplitJoin(parts, ',');
  }

  /** Text with no whitespace at either end. */
  predicate Tight(t: string)
  {
    |t| > 0 && !IsWhitespace(t[0]) && !IsWhitespace(t[|t| - 1])
  }

  /** Four tight parts, all but the first after a space, trim to
      themselves. */
  lemma SpacedPartsTrimmed(a: string, b: string, c: string, d: string)
    requires Tight(a) && Tight(b) && Tight(c) && Tight(d)
    ensures TrimAll([a, " " + b, " " + c, " " + d]) == [a, b, c, d]
  {
    var parts := [a, " " + b, " " + c, " " + d];
    TightAt(parts, 0, a);
    SpacedAt(parts, 1, b);
    SpacedAt(parts, 2, c);
    SpacedAt(parts, 3, d);
    Seqs.FourElements(TrimAll(parts), a, b, c, d);
  }

  lemma TightAt(parts: seq<string>, i: nat, p: string)
    requires i < |parts| && parts[i] == p && Tight(p)
    ensures TrimAll(parts)[i] == p
  {
    TrimNoop(p);
  }

  lemma SpacedAt(parts: seq<string>, i: nat, p: string)
    requires i < |parts| && parts[i] == " " + p && Tight(p)
    ensures TrimAll(parts)[i] == p
  {
    TrimAfterSpace(p);
  }

  /** A laid-out part has no whitespace at its ends. */
  lemma PartEnds(k: Key, v: string)
    ensures Tight(Part(k, v))
  {
    var p := Part(k, v);
    assert p[0] == KeyName(k)[0];
  }

  /** The fold over four parts, each of which sets its own field. */
  lemma FourParts(parts: seq<string>, f: Fields)
    requires |parts| == 4
    requires KeyOf(parts[0]) == Some(Local) && FieldValue(parts[0], KeyName(Local)) == f.local
    requires KeyOf(parts[1]) == Some(Remote) && FieldValue(parts[1], KeyName(Remote)) == f.remote
    requires KeyOf(parts[2]) == Some(Status) && FieldValue(parts[2], KeyName(Status)) == f.status
    requires KeyOf(parts[3]) == Some(Msg) && FieldValue(parts[3], KeyName(Msg)) == f.msg
    ensures ParseParts(parts) == f
  {
    var f1 := NoFields.(local := f.local);
    var f2 := f1.(remote := f.remote);
    var f3 := f2.(status := f.status);
    ApplyKeyed(NoFields, parts[0], Local, f.local);
    ApplyKeyed(f1, parts[1], Remote, f.remote);
    ApplyKeyed(f2, parts[2], Status, f.status);
    ApplyKeyed(f3, parts[3], Msg, f.msg);
    ParseFour(parts);
  }

  lemma ApplyKeyed(f: Fields, part: string, k: Key, v: string)
    requires KeyOf(part) == Some(k) && FieldValue(part, KeyName(k)) == v
    ensures ApplyPart(f, part) == Set(f, k, v)
  {
  }

  /** Four parts are applied one after the other. */
  lemma ParseFour(parts: seq<string>)
    requires |parts| == 4
    ensures ParseParts(parts) ==
      ApplyPart(ApplyPart(ApplyPart(ApplyPart(NoFields, parts[0]), parts[1]), parts[2]), parts[3])
  {
    ParseSnoc([], parts[0]);
    ParseSnoc(parts[..1], parts[1]);
    ParseSnoc(parts[..2], parts[2]);
    ParseSnoc(parts[..3], parts[3]);
    assert [] + [parts[0]] == parts[..1];
    assert parts[..1] + [parts[1]] == parts[..2];
    assert parts[..2] + [parts[2]] == parts[..3];
    assert parts[..3] + [parts[3]] == parts;
  }

  lemma PartHasNoComma(k: Key, v: string, lead: string)
    requires ',' !in v && (lead == "" || lead == " ")
    ensures ',' !in lead + Part(k, v)
  {
    var key := KeyName(k);
    assert ',' !in key;
    assert lead + Part(k, v) == lead + key + "'" + v + "'";
  }

  /** One laid-out part is recognised by its key and yields its value. */
  lemma PartParsed(k: Key, v: string)
    requires Clean(v)
    ensures KeyOf(Part(k, v)) == Some(k)
    ensures FieldValue(Part(k, v), KeyName(k)) == v
  {
    assert KeyOf(Part(k, v)) == Some(k) by {
      assert Part(k, v) == KeyName(k) + ("'" + v + "'");
      KeyFound(k, "'" + v + "'");
    }
    PartValue(k, v);
  }

  /** The value of a laid-out part is the value it was laid out with. */
  lemma PartValue(k: Key, v: string)
    requires |v| == 0 || (v[0] != '\'' && v[|v| - 1] != '\'')
    ensures FieldValue(Part(k, v), KeyName(k)) == v
  {
    var key := KeyName(k);
    assert |key| > 0 && key[0] != '\'';
    assert Part(k, v) == key + ("'" + v + "'");
    QuotedValue(key, v);
  }

  /** A key followed by a quoted value: removing the key and the quotes
      gives the value, whenever the key does not start with a quote. */
  lemma QuotedValue(key: string, v: string)
    requires |key| > 0 && key[0] != '\''
    requires |v| == 0 || (v[0] != '\'' && v[|v| - 1] != '\'')
    ensures FieldValue(key + ("'" + v + "'"), key) == v
  {
    var q := "'" + v + "'";
    TrimStartMatchesStep(key, q);
    TrimStartMatchesNoop(q, key);
    Unquoted(v);
  }

  /** A part starting with a key's name is recognised as that key: the
      four names start with different letters. */
  lemma KeyFound(k: Key, q: string)
    ensures KeyOf(KeyName(k) + q) == Some(k)
  {
    var p := KeyName(k) + q;
    assert p[..|KeyName(k)|] == KeyName(k);
    assert p[0] == KeyName(k)[0];
  }

  /** Removing the quotes around a value with no quote at its ends gives
      the value. */
  lemma Unquoted(v: string)
    requires |v| == 0 || (v[0] != '\'' && v[|v| - 1] != '\'')
    ensures TrimMatchesChar("'" + v + "'", '\'') == v
  {
    var q := "'" + v + "'";
    var w := v + "'";
    assert q[1..] == w;
    assert w[..|w| - 1] == v;
    assert TrimMatchesChar(q, '\'') == TrimMatchesChar(w, '\'');
    if |v| > 0 {
      assert w[0] == v[0];
    }
    assert TrimMatchesChar(w, '\'') == TrimMatchesChar(v, '\'');
  }

  /** The part of a list line the cards read: what follows the first
      colon, or the whole line when there is none, trimmed. */
  function ListBody(line: string): string
  {
    match IndexOf(line, ':')
    case Some(pos) => Trim(line[pos + 1..])
    case None => Trim(line)
  }

  /** A labelled line yields the text after its label. */
  lemma BodyAfterLabel(tag: string, body: string)
    requires ':' !in tag
    requires |body| > 0 && !IsWhitespace(body[0]) && !IsWhitespace(body[|body| - 1])
    ensures ListBody(tag + ": " + body) == body
  {
    LabelledBody(tag, body);
    TrimAfterSpace(body);
  }

  /** What follows the label's colon, untrimmed. */
  lemma LabelledBody(tag: string, body: string)
    requires ':' !in tag
    ensures ListBody(tag + ": " + body) == Trim(" " + body)
  {
    var line := tag + ": " + body;
    LabelColon(tag, line[|tag|..]);
    assert line == tag + line[|tag|..];
    assert line[|tag| + 1..] == " " + body;
  }

  /** After a colon-free label, the body is what follows the colon. */
  lemma AfterColon(tag: string, rest: string)
    requires ':' !in tag && |rest| > 0 && rest[0] == ':'
    ensures ListBody(tag + rest) == Trim(rest[1..])
  {
    LabelColon(tag, rest);
    assert (tag + rest)[|tag| + 1..] == rest[1..];
  }

  /** The first colon of a line that starts with a colon-free label and
      then a colon is the one after the label. */
  lemma LabelColon(tag: string, rest: string)
    requires ':' !in tag && |rest| > 0 && rest[0] == ':'
    ensures IndexOf(tag + rest, ':') == Some(|tag|)
  {
    var line := tag + rest;
    assert line[|tag|] == ':';
    assert forall j :: 0 <= j < |tag| ==> line[j] == tag[j];
    IndexOfIs(line, ':', |tag|);
  }

  /** A line whose only colon ends it yields nothing. */
  lemma NothingAfterColon(head: string)
    requires ':' !in head
    ensures ListBody(head + ":") == ""
  {
    AfterColon(head, ":");
    assert ":"[1..] == "";
  }

  /** A failed listing starts with its failure heading, which ends at its
      colon and so yields no card: the cards are numbered from 2. */
  lemma FailedListingHeading(out: string, err: string)
    ensures Lines(ListResult(Finished(false, out, err)))[0] == ListFailurePrefix[..|ListFailurePrefix| - 1]
    ensures ListBody(ListFailurePrefix[..|ListFailurePrefix| - 1]) == ""
  {
    var head := ListFailurePrefix[..|ListFailurePrefix| - 2];
    var h := ListFailurePrefix[..|ListFailurePrefix| - 1];
    assert h == head + ":";
    assert ':' !in head;
    NothingAfterColon(head);
    assert ListFailurePrefix == h + "\n";
    assert NoBreak(h);
    LinesOfTerminated(h);
    LinesAppend(ListFailurePrefix, err);
  }

  /** A line passes the search box when the search is empty or the line
      contains it, ignoring case. */
  predicate Matches(search: string, line: string)
  {
    search == "" || ContainsIgnoreCase(line, search)
  }

  /** A line becomes a card when it passes the search and its body is not
      empty. */
  predicate Shows(search: string, line: string)
  {
    Matches(search, line) && ListBody(line) != ""
  }

  /** A card: its one-based line number in the listing and the line it
      shows. */
  datatype Card = Card(number: nat, line: string)

  /** The fields a card shows, read from its line's body. */
  function CardFields(c: Card): Fields
  {
    ParseFields(ListBody(c.line))
  }

  /** The cards for the lines `keep` accepts, in line order. */
  function CardsWhere(lines: seq<string>, keep: string -> bool): (r: seq<Card>)
    ensures forall i :: 0 <= i < |r| ==> 1 <= r[i].number <= |lines|
    ensures forall i :: 0 <= i < |r| ==> r[i].line == lines[r[i].number - 1] && keep(r[i].line)
    ensures forall i, j :: 0 <= i < j < |r| ==> r[i].number < r[j].number
  {
    var ps := Seqs.Positions(keep, lines);
    seq(|ps|, i requires 0 <= i < |ps| => Card(ps[i] + 1, lines[ps[i]]))
  }

  /** The cards for a listing's lines under a search: each is for a line
      that passes the search and has a non-empty body. */
  function Cards(lines: seq<string>, search: string): (r: seq<Card>)
    ensures forall i :: 0 <= i < |r| ==> 1 <= r[i].number <= |lines| && r[i].line == lines[r[i].number - 1]
    ensures forall i :: 0 <= i < |r| ==> Shows(search, r[i].line)
  {
    var cards := CardsWhere(lines, ShowsUnder(search));
    CardsShow(cards, search);
    cards
  }

  /** The search as a line filter. */
  function ShowsUnder(search: string): string -> bool
  {
    (l: string) => Shows(search, l)
  }

  /** Cards kept by the search filter show under the search. */
  lemma CardsShow(cards: seq<Card>, search: string)
    requires forall i :: 0 <= i < |cards| ==> ShowsUnder(search)(cards[i].line)
    ensures forall i :: 0 <= i < |cards| ==> Shows(search, cards[i].line)
  {
  }

  /** Every line that passes the search with a non-empty body has its
      card. */
  lemma CardsComplete(lines: seq<string>, search: string, n: nat)
    requires n < |lines| && Shows(search, lines[n])
    ensures exists i :: 0 <= i < |Cards(lines, search)| && Cards(lines, search)[i].number == n + 1
  {
    var keep := ShowsUnder(search);
    var ps := Seqs.Positions(keep, lines);
    Seqs.PositionsComplete(keep, lines, n);
    var i :| 0 <= i < |ps| && ps[i] == n;
    assert Cards(lines, search)[i].number == n + 1;
  }

  /** What the list area shows. */
  datatype ListView = LoadingList | NoneFound | CardList(cards: seq<Card>)

  function View(uploads: string, search: string): (r: ListView)
    ensures r.LoadingList? <==> Trim(uploads) == LoadingText
    ensures r.CardList? ==> r.cards == Cards(Lines(uploads), search) && |r.cards| > 0
    ensures r.NoneFound? ==> Cards(Lines(uploads), search) == []
  {
    if Trim(uploads) == LoadingText then LoadingList
    else
      var cards := Cards(Lines(uploads), search);
      if |cards| == 0 then NoneFound else CardList(cards)
  }

  /** The badge a card's status gets. */
  datatype Badge = Done | Broken | Waiting

  /** Success wins over failure: a status mentioning both is done. */
  function StatusBadge(status: string): (r: Badge)
    ensures r == Done <==> ContainsIgnoreCase(status, "success") || ContainsIgnoreCase(status, "completed")
    ensures r == Broken <==>
      !(ContainsIgnoreCase(status, "success") || ContainsIgnoreCase(status, "completed")) &&
      (ContainsIgnoreCase(status, "failed") || ContainsIgnoreCase(status, "error"))
  {
    if ContainsIgnoreCase(status, "success") || ContainsIgnoreCase(status, "completed") then Done
    else if ContainsIgnoreCase(status, "failed") || ContainsIgnoreCase(status, "error") then Broken
    else Waiting
  }

  /** A card field with the search text marked: the text before the
      first case-insensitive match, the match, and the text after. */
  datatype Highlight = Whole(text: string) | Marked(before: string, matched: string, after: string)

  function Flatten(h: Highlight): string
  {
    match h
    case Whole(t) => t
    case Marked(b, m, a) => b + m + a
  }

  function HighlightField(text: string, search: string): (r: Highlight)
    ensures Flatten(r) == text
    ensures r.Whole? <==> search == "" || !ContainsIgnoreCase(text, search)
    ensures r.Marked? ==> ToLower(r.matched) == ToLower(search)
    ensures r.Marked? ==> forall j :: 0 <= j < |r.before| ==> !OccursAt(ToLower(text), ToLower(search), j)
  {
    if search == "" then Whole(text)
    else match Find(ToLower(text), ToLower(search))
      case None => Whole(text)
      case Some(i) =>
        MatchedSlice(text, search, i);
        Marked(text[..i], text[i..i + |search|], text[i + |search|..])
  }

  /** Where the lower-cased search occurs in the lower-cased text, the
      text's own slice there matches the search ignoring case, and the
      three pieces around it spell the text. */
  lemma MatchedSlice(text: string, search: string, i: nat)
    requires OccursAt(ToLower(text), ToLower(search), i)
    ensures i + |search| <= |text|
    ensures ToLower(text[i..i + |search|]) == ToLower(search)
    ensures text[..i] + text[i..i + |search|] + text[i + |search|..] == text
  {
    var e := i + |search|;
    LowerSlice(text, i, e);
    Seqs.ThreeSlices(text, i, e);
  }

  /** Lower-casing commutes with taking a slice. */
  lemma LowerSlice(s: string, i: nat, j: nat)
    requires i <= j <= |s|
    ensures ToLower(s[i..j]) == ToLower(s)[i..j]
  {
  }
}
