/** The worked example of the public-link output: a direct link line and
    its preview twin, both carrying `hash=abc123`. */
module LinkExamples {
  import opened Options
  import opened Text
  import opened Link

  const Host := "https://pipe.network/"
  const DirectLine := Host + HashQuery + "abc123"
  const PreviewLine := DirectLine + "&preview=true"
  const BeforeKey := Host + "publicDownload?"

  const FallbackLink := "https://x.pipenetwork.com/f"
  const FallbackLine := "see " + FallbackLink + " now"

  /** The fallback reads the link out of a line of prose: from the first
      `https://` up to the space after it. */
  lemma FallbackExample()
    ensures FallbackOf(FallbackLine) == Some(FallbackLink)
  {
    var front := HttpsPrefix + "x.";
    var link := front + HostName + "/f";
    assert FallbackLink == link;
    HttpsPrefixIsVisible();
    HostIsVisible();
    VisibleJoin(HttpsPrefix, "x.");
    VisibleJoin(front, HostName);
    VisibleJoin(front + HostName, "/f");
    assert link[|front|..|front| + |HostName|] == HostName;
    assert OccursAt(link, HostName, |front|);
    assert link[..|HttpsPrefix|] == HttpsPrefix;
    FallbackOfParts("see ", link, " now");
  }

  /** The host name holds no whitespace. */
  lemma HostIsVisible()
    ensures forall i :: 0 <= i < |HostName| ==> !IsWhitespace(HostName[i])
  {
  }

  /** Two pieces without whitespace join into one without. */
  lemma VisibleJoin(a: string, b: string)
    requires forall i :: 0 <= i < |a| ==> !IsWhitespace(a[i])
    requires forall i :: 0 <= i < |b| ==> !IsWhitespace(b[i])
    ensures forall i :: 0 <= i < |a + b| ==> !IsWhitespace((a + b)[i])
  {
  }

  /** The direct line does not hold `preview=true`. */
  lemma DirectHasNoPreview()
    ensures !Contains(DirectLine, PreviewMarker)
  {
    var d := DirectLine;
    forall j | 0 <= j <= |d| ensures !OccursAt(d, PreviewMarker, j) {
      if j + 12 <= |d| {
        assert d[j..j + 12][0] == d[j];
        assert d[j..j + 12][8] == d[j + 8];
      }
    }
  }

  /** No `hash=` starts before the query's own. */
  lemma NoHashKeyBefore(d: string, rest: string)
    requires d == BeforeKey + HashKey + rest
    ensures forall j :: 0 <= j < |BeforeKey| ==> !OccursAt(d, HashKey, j)
  {
    forall j | 0 <= j < |BeforeKey| ensures !OccursAt(d, HashKey, j) {
      if j + 5 <= |d| {
        assert d[j..j + 5][0] == d[j];
        assert d[j..j + 5][4] == d[j + 4];
      }
    }
  }

  /** Both lines start `https://` and hold the download query. */
  lemma ExampleMarkers(d: string, rest: string)
    requires d == Host + HashQuery + rest
    ensures StartsWith(d, HttpsPrefix) && Contains(d, DownloadMarker) && Contains(d, HashQuery)
    ensures d == BeforeKey + HashKey + rest
  {
    assert d[21..21 + |HashQuery|] == HashQuery;
    assert OccursAt(d, HashQuery, 21);
    assert d[21..21 + |DownloadMarker|] == DownloadMarker;
    assert OccursAt(d, DownloadMarker, 21);
  }

  /** The direct line offers itself as the direct link only. */
  lemma DirectLineOffers()
    ensures DirectOf(DirectLine) == Some(DirectLine) && PreviewOf(DirectLine) == None
  {
    ExampleMarkers(DirectLine, "abc123");
    DirectHasNoPreview();
    DirectOfLine(DirectLine);
  }

  /** The preview line offers itself as the preview link only. */
  lemma PreviewLineOffers()
    ensures DirectOf(PreviewLine) == None && PreviewOf(PreviewLine) == Some(PreviewLine)
  {
    var s := PreviewLine;
    ExampleMarkers(s, "abc123&preview=true");
    assert s[|DirectLine| + 1..|DirectLine| + 13] == PreviewMarker;
    assert OccursAt(s, PreviewMarker, |DirectLine| + 1);
    PreviewOfLine(s);
  }

  /** A line of the example's shape offers the hash after `hash=` up to
      the first character that ends it. */
  lemma ExampleHash(h: string, tail: string)
    requires h != "" && forall i :: 0 <= i < |h| ==> !IsHashStop(h[i])
    requires tail == "" || IsHashStop(tail[0])
    requires !IsWhitespace((h + tail)[|h + tail| - 1])
    ensures HashOf(Host + HashQuery + (h + tail)) == Some(h)
  {
    var line := Host + HashQuery + (h + tail);
    ExampleMarkers(line, h + tail);
    NoHashKeyBefore(line, h + tail);
    assert line == BeforeKey + HashKey + h + tail;
    assert line[0] == Host[0];
    assert line[|line| - 1] == (h + tail)[|h + tail| - 1];
    HashOfLine(line, BeforeKey, h, tail);
  }

  /** Both lines offer the hash `abc123`; on the preview line the `&` ends it. */
  lemma DirectLineHash()
    ensures HashOf(DirectLine) == Some("abc123")
  {
    assert DirectLine == Host + HashQuery + ("abc123" + "");
    ExampleHash("abc123", "");
  }

  lemma PreviewLineHash()
    ensures HashOf(PreviewLine) == Some("abc123")
  {
    assert PreviewLine == Host + HashQuery + ("abc123" + "&preview=true");
    ExampleHash("abc123", "&preview=true");
  }

  /** The two lines give the direct link, the preview link and the hash
      `abc123`. */
  lemma ScanExample()
    ensures Scan([DirectLine, PreviewLine]) == Found(Some(DirectLine), Some(PreviewLine), Some("abc123"))
  {
    DirectLineOffers();
    PreviewLineOffers();
    DirectLineHash();
    PreviewLineHash();
    ScanTwo(DirectLine, PreviewLine);
  }

  /** A closing quote and bracket after the hash are not part of it. */
  lemma QuotedHashExample()
    ensures HashOf(Host + HashQuery + "abc123\")") == Some("abc123")
  {
    assert Host + HashQuery + "abc123\")" == Host + HashQuery + ("abc123" + "\")");
    ExampleHash("abc123", "\")");
  }
}
