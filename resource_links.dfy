/**
 * The resource strings of a roadmap week ("FreeCodeCamp – https://...") and
 * the two ways the cards turn them into links: the weekly roadmap card's
 * `extractLink`, which looks for a URL, and the transformation plan's week
 * card, which splits on the en dash.
 */
module ResourceLinks {
  import opened Wrappers
  import opened Text
  import opened Braces

  const Http: string := "http://"
  const Https: string := "https://"

  /** The separators `/\s*[-–—:]\s*$/` removes from the end of a title. */
  predicate IsSeparator(c: char) {
    c == '-' || c == '\U{2013}' || c == '\U{2014}' || c == ':'
  }

  /** Characters `b` up to `e` of `s` are a non-empty run without white space. */
  predicate NonSpaceRun(s: string, b: nat, e: nat) {
    b < e <= |s| && forall k :: b <= k < e ==> !IsSpace(s[k])
  }

  /** `/https?:\/\/[^\s]+/` can match exactly `s[p..e]`. */
  ghost predicate UrlMatches(s: string, p: nat, e: nat) {
    || (StartsAt(s, p, Http) && NonSpaceRun(s, p + |Http|, e))
    || (StartsAt(s, p, Https) && NonSpaceRun(s, p + |Https|, e))
  }

  /** "http://" and "https://" never start at the same position. */
  lemma SchemesExclusive(s: string, p: nat)
    ensures StartsAt(s, p, Https) ==> !StartsAt(s, p, Http)
  {
    if StartsAt(s, p, Https) {
      assert s[p + 4] == s[p..p + |Https|][4] == 's';
    }
  }

  /** The end of the run of non-space characters that starts at `from`. */
  function WordEnd(s: string, from: nat): (e: nat)
    requires from <= |s|
    ensures from <= e <= |s|
    ensures forall k :: from <= k < e ==> !IsSpace(s[k])
    ensures e < |s| ==> IsSpace(s[e])
    decreases |s| - from
  {
    if from < |s| && !IsSpace(s[from]) then WordEnd(s, from + 1) else from
  }

  /** Where the URL's run starts, if a scheme starts at `p`: `https?` takes the "s" when it can. */
  function SchemeEnd(s: string, p: nat): Option<nat> {
    if StartsAt(s, p, Https) then Some(p + |Https|)
    else if StartsAt(s, p, Http) then Some(p + |Http|)
    else None
  }

  /**
   * At `p` the pattern matches exactly when a scheme starts there and a
   * non-space character follows it, and no match runs past the end of that word.
   */
  lemma UrlMatchesAt(s: string, p: nat)
    ensures forall e: nat :: UrlMatches(s, p, e) ==>
      SchemeEnd(s, p).Some? && SchemeEnd(s, p).value < |s| && !IsSpace(s[SchemeEnd(s, p).value])
      && e <= WordEnd(s, SchemeEnd(s, p).value)
    ensures SchemeEnd(s, p).Some? && SchemeEnd(s, p).value < |s| && !IsSpace(s[SchemeEnd(s, p).value]) ==>
      UrlMatches(s, p, WordEnd(s, SchemeEnd(s, p).value))
  {
    SchemesExclusive(s, p);
  }

  /**
   * The match of `/https?:\/\/[^\s]+/` at or after `from`: it starts at the
   * first position where the pattern can match, and is as long as it can be.
   */
  function UrlFrom(s: string, from: nat): (r: Option<Span>)
    decreases |s| - from
    ensures r.Some? ==> from <= r.value.start && UrlMatches(s, r.value.start, r.value.end)
    ensures r.Some? ==> forall e: nat :: r.value.end < e ==> !UrlMatches(s, r.value.start, e)
    ensures r.Some? ==> forall p: nat, e: nat :: from <= p < r.value.start ==> !UrlMatches(s, p, e)
    ensures r.None? ==> forall p: nat, e: nat :: from <= p ==> !UrlMatches(s, p, e)
  {
    if from >= |s| then None
    else match SchemeEnd(s, from)
      case Some(q) =>
        UrlMatchesAt(s, from);
        if q < |s| && !IsSpace(s[q]) then Some(Span(from, WordEnd(s, q)))
        else UrlFrom(s, from + 1)
      case None =>
        UrlMatchesAt(s, from);
        UrlFrom(s, from + 1)
  }

  /** A match with none before it, from `from` on, is where `UrlFrom` finds one. */
  lemma {:induction false} UrlFromFirst(s: string, from: nat, p: nat, e: nat)
    requires from <= p && UrlMatches(s, p, e)
    requires forall q: nat, e': nat :: from <= q < p ==> !UrlMatches(s, q, e')
    ensures UrlFrom(s, from).Some? && UrlFrom(s, from).value.start == p
    decreases p - from
  {
    if from < p {
      UrlFromFirst(s, from + 1, p, e);
    }
  }

  /** `/\s*[-–—:]\s*$/` matches all of `u`: white space, one separator, white space. */
  ghost predicate SeparatorTail(u: string) {
    u != [] && ((IsSpace(u[0]) && SeparatorTail(u[1..])) || (IsSeparator(u[0]) && AllSpace(u[1..])))
  }

  /** A separator tail is white space around one separator at position `k`. */
  lemma {:induction false} SeparatorTailIndex(u: string) returns (k: nat)
    requires SeparatorTail(u)
    ensures k < |u| && AllSpace(u[..k]) && IsSeparator(u[k]) && AllSpace(u[k + 1..])
  {
    if IsSeparator(u[0]) && AllSpace(u[1..]) {
      k := 0;
    } else {
      var k' := SeparatorTailIndex(u[1..]);
      k := k' + 1;
      assert u[..k] == [u[0]] + u[1..][..k'];
    }
  }

  /** White space, one separator at `k` and white space make a separator tail. */
  lemma {:induction false} SeparatorTailAt(u: string, k: nat)
    requires k < |u| && AllSpace(u[..k]) && IsSeparator(u[k]) && AllSpace(u[k + 1..])
    ensures SeparatorTail(u)
  {
    if k > 0 {
      assert IsSpace(u[..k][0]);
      assert u[1..][..k - 1] == u[1..k];
      SeparatorTailAt(u[1..], k - 1);
    }
  }

  /**
   * `t.replace(/\s*[-–—:]\s*$/, "")`: the leftmost match, if any, is cut off.
   */
  function DropTrailingSeparator(t: string): (r: string)
    ensures r == t <==> forall i: nat :: i <= |t| ==> !SeparatorTail(t[i..])
    ensures r != t ==>
      && |r| < |t| && r == t[..|r|] && SeparatorTail(t[|r|..])
      && forall j: nat :: j < |r| ==> !SeparatorTail(t[j..])
  {
    var e := |TrimEnd(t)|;
    if e > 0 && IsSeparator(t[e - 1]) then
      var i := |TrimEnd(t[..e - 1])|;
      assert t[i..][..e - 1 - i] == t[..e - 1][i..];
      assert t[i..][e - i..] == t[e..];
      SeparatorTailAt(t[i..], e - 1 - i);
      SeparatorTailLeftmost(t, i, e);
      t[..i]
    else
      NoSeparatorTail(t, e);
      t
  }

  /** No match starts before the white space that precedes the last separator. */
  lemma SeparatorTailLeftmost(t: string, i: nat, e: nat)
    requires e == |TrimEnd(t)| && 0 < e && IsSeparator(t[e - 1]) && i == |TrimEnd(t[..e - 1])|
    ensures forall j: nat :: j < i ==> !SeparatorTail(t[j..])
  {
    assert i > 0 ==> !IsSpace(t[..e - 1][i - 1]);
    assert i > 0 ==> !IsSpace(t[i - 1]);
    assert !IsSpace(t[e - 1]);
    forall j: nat | j < i && SeparatorTail(t[j..])
      ensures false
    {
      var k := SeparatorTailOf(t, j);
    }
  }

  /** Without a separator as its last non-space character, `t` has no separator tail. */
  lemma NoSeparatorTail(t: string, e: nat)
    requires e == |TrimEnd(t)| && !(e > 0 && IsSeparator(t[e - 1]))
    ensures forall i: nat :: i <= |t| ==> !SeparatorTail(t[i..])
  {
    assert e > 0 ==> !IsSpace(t[e - 1]);
    assert forall m :: e <= m < |t| ==> t[e..][m - e] == t[m];
    assert forall m :: e <= m < |t| ==> IsSpace(t[m]);
    forall i: nat | i <= |t| && SeparatorTail(t[i..])
      ensures false
    {
      var k := SeparatorTailOf(t, i);
    }
  }

  /** The separator tail from `j` on holds one separator, at `k`, and white space elsewhere. */
  lemma SeparatorTailOf(t: string, j: nat) returns (k: nat)
    requires j <= |t| && SeparatorTail(t[j..])
    ensures j <= k < |t| && IsSeparator(t[k]) && !IsSpace(t[k])
    ensures forall m :: j <= m < |t| && m != k ==> IsSpace(t[m])
  {
    var k0 := SeparatorTailIndex(t[j..]);
    k := j + k0;
    forall m | j <= m < |t| && m != k
      ensures IsSpace(t[m])
    {
      if m < k {
        assert t[j..][..k0][m - j] == t[m];
      } else {
        assert t[j..][k0 + 1..][m - k - 1] == t[m];
      }
    }
  }

  /** A resource as the weekly roadmap card reads it: a title and the URL, if one was found. */
  datatype Link = Link(title: string, url: Option<string>)

  /**
   * `extractLink`: the first URL, and as title the text without that URL,
   * without a trailing separator, trimmed; the whole text when there is no URL.
   */
  function ExtractLink(text: string): (r: Link)
    ensures r.url.None? <==> forall p: nat, e: nat :: !UrlMatches(text, p, e)
    ensures r.url.None? ==> r.title == text
    ensures r.url.Some? ==> NoOuterSpace(r.title)
    ensures r.url.Some? ==> exists p: nat, e: nat ::
      && UrlMatches(text, p, e) && p <= e <= |text|
      && (forall q: nat, e': nat :: q < p ==> !UrlMatches(text, q, e'))
      && (forall e': nat :: e < e' ==> !UrlMatches(text, p, e'))
      && r.url.value == text[p..e]
      && r.title == Trim(DropTrailingSeparator(text[..p] + text[e..]))
  {
    match UrlFrom(text, 0)
    case None => Link(text, None)
    case Some(m) =>
      var r := Link(Trim(DropTrailingSeparator(text[..m.start] + text[m.end..])), Some(text[m.start..m.end]));
      assert UrlMatches(text, m.start, m.end) && m.start <= m.end <= |text|;
      assert r.url.value == text[m.start..m.end];
      r
  }

  /** `url.replace(/^https?:\/\//, "")`. */
  function StripScheme(url: string): (r: string)
    ensures StartsAt(url, 0, Https) ==> url == Https + r
    ensures StartsAt(url, 0, Http) ==> url == Http + r
    ensures !StartsAt(url, 0, Http) && !StartsAt(url, 0, Https) ==> r == url
  {
    SchemesExclusive(url, 0);
    if StartsAt(url, 0, Https) then url[|Https|..]
    else if StartsAt(url, 0, Http) then url[|Http|..]
    else url
  }

  const EnDash: char := '\U{2013}'

  /** The anchor text the card shows: "title – host/path", or the bare title without a URL. */
  function LinkText(link: Link): (r: string)
    ensures link.url.None? ==> r == link.title
    ensures link.url.Some? && link.title == "" ==> r == StripScheme(link.url.value)
    ensures link.url.Some? && link.title != "" ==>
      && |r| == |link.title| + 3 + |StripScheme(link.url.value)|
      && r[..|link.title|] == link.title
      && r[|link.title|..|link.title| + 3] == [' ', EnDash, ' ']
      && r[|link.title| + 3..] == StripScheme(link.url.value)
  {
    match link.url
    case None => link.title
    case Some(url) => (if link.title != "" then link.title + [' ', EnDash, ' '] else "") + StripScheme(url)
  }

  /** Before the URL of "title – url", with no ':' in the title, no scheme can start. */
  lemma NoSchemeBefore(title: string, rest: string, q: nat)
    requires ':' !in title && q < |title| + 3
    ensures !StartsAt(title + [' ', EnDash, ' '] + rest, q, Http)
    ensures !StartsAt(title + [' ', EnDash, ' '] + rest, q, Https)
  {
    var s := title + [' ', EnDash, ' '] + rest;
    // The first position from `q` on that falls inside " – ".
    var j := if q < |title| then |title| - q else 0;
    assert |title| <= q + j < |title| + 3;
    assert s[q + j] == ' ' || s[q + j] == EnDash;
    if q + 4 < |title| {
      assert s[q + 4] == title[q + 4] && title[q + 4] != ':';
      MismatchAt(s, q, Http, 4);
    } else {
      MismatchAt(s, q, Http, j);
    }
    if q + 5 < |title| {
      assert s[q + 5] == title[q + 5] && title[q + 5] != ':';
      MismatchAt(s, q, Https, 5);
    } else {
      MismatchAt(s, q, Https, j);
    }
  }

  /** In "title – url" the URL match is all of `url`. */
  lemma UrlOfResource(title: string, scheme: string, host: string)
    requires scheme == Http || scheme == Https
    requires host != [] && forall k :: 0 <= k < |host| ==> !IsSpace(host[k])
    requires ':' !in title
    ensures var s := title + [' ', EnDash, ' '] + (scheme + host);
      UrlFrom(s, 0) == Some(Span(|title| + 3, |s|))
  {
    var s := title + [' ', EnDash, ' '] + (scheme + host);
    var p := |title| + 3;
    UrlAfterDash(title, scheme, host);
    NoUrlBeforeDash(title, scheme + host);
    UrlFromFirst(s, 0, p, |s|);
    var m := UrlFrom(s, 0).value;
    assert UrlMatches(s, p, m.end) && m.end <= |s|;
    assert m.end == |s|;
  }

  /** The URL after " – " matches up to the end. */
  lemma UrlAfterDash(title: string, scheme: string, host: string)
    requires scheme == Http || scheme == Https
    requires host != [] && forall k :: 0 <= k < |host| ==> !IsSpace(host[k])
    ensures UrlMatches(title + [' ', EnDash, ' '] + (scheme + host), |title| + 3, |title| + 3 + |scheme| + |host|)
  {
    var s := title + [' ', EnDash, ' '] + (scheme + host);
    var p := |title| + 3;
    assert s[p..p + |scheme|] == scheme;
    assert forall k :: p + |scheme| <= k < |s| ==> s[k] == host[k - p - |scheme|];
    assert NonSpaceRun(s, p + |scheme|, |s|);
  }

  /** With no ':' in the title, no URL starts before the one after " – ". */
  lemma NoUrlBeforeDash(title: string, url: string)
    requires ':' !in title
    ensures forall q: nat, e: nat :: q < |title| + 3 ==> !UrlMatches(title + [' ', EnDash, ' '] + url, q, e)
  {
    forall q: nat, e: nat | q < |title| + 3
      ensures !UrlMatches(title + [' ', EnDash, ' '] + url, q, e)
    {
      NoSchemeBefore(title, url, q);
    }
  }

  /** What is left of "title – url" without the URL gives the title back. */
  lemma TitleOfResource(title: string)
    requires NoOuterSpace(title) && (title != [] ==> !IsSeparator(title[|title| - 1]))
    ensures Trim(DropTrailingSeparator(title + [' ', EnDash, ' '])) == title
  {
    var rest := title + [' ', EnDash, ' '];
    assert rest[|title|..] == [' ', EnDash, ' '];
    assert [' ', EnDash, ' '][..1] == [' '] && [' ', EnDash, ' '][2..] == [' '];
    SeparatorTailAt([' ', EnDash, ' '], 1);
    NoSeparatorTailInTitle(title);
    var dropped := DropTrailingSeparator(rest);
    assert |dropped| == |title|;
    assert dropped == rest[..|title|] == title;
    TrimKeepsTrimmed(title);
  }

  /** In "title – " no separator tail starts inside the title. */
  lemma NoSeparatorTailInTitle(title: string)
    requires NoOuterSpace(title)
    ensures forall j: nat :: j < |title| ==> !SeparatorTail((title + [' ', EnDash, ' '])[j..])
  {
    var rest := title + [' ', EnDash, ' '];
    assert title != [] ==> !IsSpace(rest[|title| - 1]);
    assert !IsSpace(rest[|title| + 1]);
    forall j: nat | j < |title| && SeparatorTail(rest[j..])
      ensures false
    {
      var k := SeparatorTailOf(rest, j);
    }
  }

  /** The card shows a URL without its scheme. */
  lemma StripSchemeOf(scheme: string, host: string)
    requires scheme == Http || scheme == Https
    ensures StripScheme(scheme + host) == host
  {
    var url := scheme + host;
    SchemesExclusive(url, 0);
    assert url[|scheme|..] == host;
    if scheme == Http {
      assert url[4] == ':';
    }
  }

  /**
   * A resource written as the roadmap prompt asks, "title – url", is read
   * back as that title and that URL, and shown as "title – host/path".
   */
  lemma LinkRoundTrip(title: string, scheme: string, host: string)
    requires scheme == Http || scheme == Https
    requires host != [] && forall k :: 0 <= k < |host| ==> !IsSpace(host[k])
    requires NoOuterSpace(title) && ':' !in title && (title != [] ==> !IsSeparator(title[|title| - 1]))
    ensures ExtractLink(title + [' ', EnDash, ' '] + (scheme + host)) == Link(title, Some(scheme + host))
    ensures LinkText(ExtractLink(title + [' ', EnDash, ' '] + (scheme + host)))
      == (if title != "" then title + [' ', EnDash, ' '] else "") + host
  {
    var s := title + [' ', EnDash, ' '] + (scheme + host);
    UrlOfResource(title, scheme, host);
    assert s[..|title| + 3] + s[|s|..] == title + [' ', EnDash, ' '];
    assert s[|title| + 3..|s|] == scheme + host;
    TitleOfResource(title);
    StripSchemeOf(scheme, host);
  }

  /**
   * `s.split(sep)` for a one-character separator: the pieces between the
   * separators; there is one piece more than there are separators.
   */
  function Split(s: string, sep: char): (r: seq<string>)
    ensures |r| >= 1
    ensures forall i :: 0 <= i < |r| ==> sep !in r[i]
    ensures |r| == 1 <==> sep !in s
    decreases |s|
  {
    var i := IndexOf(s, sep);
    if i == -1 then [s]
    else
      var rest := Split(s[i + 1..], sep);
      var r := [s[..i]] + rest;
      assert sep in s && sep !in s[..i];
      assert forall k :: 1 <= k < |r| ==> r[k] == rest[k - 1];
      assert forall k :: 0 <= k < |r| ==> sep !in r[k];
      r
  }

  /** Joining the pieces with the separator gives the string back. */
  lemma {:induction false} JoinSplit(s: string, sep: char)
    ensures Join(Split(s, sep), sep) == s
    decreases |s|
  {
    var i := IndexOf(s, sep);
    if i != -1 {
      var head, tail := s[..i], s[i + 1..];
      var rest := Split(tail, sep);
      assert Split(s, sep) == [head] + rest;
      JoinSplit(tail, sep);
      JoinCons(head, rest, sep);
      AroundIndex(s, i);
    }
  }

  /** `parts.join(sep)`. */
  function Join(parts: seq<string>, sep: char): string
    requires |parts| >= 1
  {
    if |parts| == 1 then parts[0] else parts[0] + [sep] + Join(parts[1..], sep)
  }

  /** Splitting undoes joining pieces that do not contain the separator. */
  lemma {:induction false} SplitJoin(parts: seq<string>, sep: char)
    requires |parts| >= 1 && forall i :: 0 <= i < |parts| ==> sep !in parts[i]
    ensures Split(Join(parts, sep), sep) == parts
  {
    if |parts| == 1 {
      assert IndexOf(parts[0], sep) == -1;
    } else {
      var head, tail := parts[0], parts[1..];
      assert forall i :: 0 <= i < |tail| ==> tail[i] == parts[i + 1];
      assert Join(parts, sep) == head + [sep] + Join(tail, sep);
      SplitAtFirst(head, sep, Join(tail, sep));
      SplitJoin(tail, sep);
      FirstAndRest(parts);
    }
  }

  /** Splitting at a first separator gives the piece before it and the pieces of the rest. */
  lemma SplitAtFirst(head: string, sep: char, rest: string)
    requires sep !in head
    ensures Split(head + [sep] + rest, sep) == [head] + Split(rest, sep)
  {
    var s := head + [sep] + rest;
    AroundSeparator(head, sep, rest);
    IndexOfAt(s, sep, |head|);
  }

  /** Joining a piece in front of other pieces puts a separator between them. */
  lemma JoinCons(head: string, rest: seq<string>, sep: char)
    requires |rest| >= 1
    ensures Join([head] + rest, sep) == head + [sep] + Join(rest, sep)
  {
    assert ([head] + rest)[1..] == rest;
  }

  /** A string is the part before position `i`, the character there, and the part after. */
  lemma AroundIndex(s: string, i: nat)
    requires i < |s|
    ensures s == s[..i] + [s[i]] + s[i + 1..]
  {
  }

  /** A non-empty sequence is its first element followed by the rest. */
  lemma FirstAndRest<T>(s: seq<T>)
    requires |s| >= 1
    ensures s == [s[0]] + s[1..]
  {
  }

  /** The parts of `a + [c] + b` on either side of `c`. */
  lemma AroundSeparator(a: string, c: char, b: string)
    ensures var s := a + [c] + b; s[..|a|] == a && s[|a|] == c && s[|a| + 1..] == b
  {
  }

  /** A resource as the transformation plan's week card shows it. */
  datatype ResourceItem = Anchor(caption: string, href: string) | PlainText(text: string)

  /**
   * The week card's resource: split on the en dash and trim each piece; with
   * at least two pieces, the first labels a link to the second.
   */
  function ResourceView(resource: string): (v: ResourceItem)
    ensures v.PlainText? <==> EnDash !in resource
    ensures v.PlainText? ==> v.text == resource
    ensures v.Anchor? ==> NoOuterSpace(v.caption) && NoOuterSpace(v.href)
    ensures v.Anchor? ==> v.caption == Trim(Before(resource, EnDash))
    ensures v.Anchor? ==> v.href == Trim(Before(After(resource, EnDash), EnDash))
  {
    var parts := Split(resource, EnDash);
    if |parts| >= 2 then
      SplitFirstTwo(resource, EnDash);
      Anchor(Trim(parts[0]), Trim(parts[1]))
    else PlainText(resource)
  }

  /** The text before the first `c`, or all of `s` when it holds none. */
  function Before(s: string, c: char): (r: string)
    ensures c !in r
    ensures c in s ==> s == r + [c] + After(s, c)
  {
    var i := IndexOf(s, c);
    if i == -1 then s
    else
      assert s == s[..i] + [c] + s[i + 1..];
      s[..i]
  }

  /** The text after the first `c` of `s`. */
  function After(s: string, c: char): string
    requires c in s
  {
    s[IndexOf(s, c) + 1..]
  }

  /** The first two pieces of a split: up to the first separator, then up to the next one or the end. */
  lemma SplitFirstTwo(s: string, sep: char)
    requires sep in s
    ensures |Split(s, sep)| >= 2
    ensures Split(s, sep)[0] == Before(s, sep)
    ensures Split(s, sep)[1] == Before(After(s, sep), sep)
  {
    var head, rest := Before(s, sep), After(s, sep);
    assert s == head + [sep] + rest;
    SplitAtFirst(head, sep, rest);
    SplitHead(rest, sep);
  }

  /** The first piece of a split runs up to the first separator, or is the whole string. */
  lemma SplitHead(s: string, sep: char)
    ensures Split(s, sep)[0] == Before(s, sep)
  {
  }

  /** "caption – href" is shown as a link labelled `caption` to `href`. */
  lemma ResourceViewOfPair(caption: string, href: string)
    requires NoOuterSpace(caption) && NoOuterSpace(href)
    requires EnDash !in caption && EnDash !in href
    ensures ResourceView(caption + [' ', EnDash, ' '] + href) == Anchor(caption, href)
  {
    SplitPair(caption, href);
    TrimSpaceAfter(caption);
    TrimSpaceBefore(href);
  }

  /** Pieces after a second en dash are dropped: "caption – href – more" links `caption` to `href`. */
  lemma ResourceViewIgnoresExtra(caption: string, href: string, more: string)
    requires NoOuterSpace(caption) && NoOuterSpace(href)
    requires EnDash !in caption && EnDash !in href
    ensures ResourceView(caption + [' ', EnDash, ' '] + href + [' ', EnDash] + more) == Anchor(caption, href)
  {
    var left, middle := caption + [' '], [' '] + href + [' '];
    assert Trim(left) == caption by {
      TrimSpaceAfter(caption);
    }
    assert Trim(middle) == href by {
      assert AllSpace([' ']);
      TrimPadded([' '], href, [' ']);
    }
    assert EnDash !in left by {
      assert left[..|caption|] == caption;
    }
    assert EnDash !in middle by {
      assert middle[1..|href| + 1] == href;
    }
    ResourceViewOfThree(left, middle, more);
    Regroup(caption, href, more);
  }

  /** "c – h –m" is "c " and " h " and "m" joined by en dashes. */
  lemma Regroup(c: string, h: string, m: string)
    ensures c + [' ', EnDash, ' '] + h + [' ', EnDash] + m == (c + [' ']) + [EnDash] + ([' '] + h + [' ']) + [EnDash] + m
  {
    var x := c + [' ', EnDash, ' '] + h + [' ', EnDash] + m;
    var y := (c + [' ']) + [EnDash] + ([' '] + h + [' ']) + [EnDash] + m;
    assert |x| == |y|;
    forall k | 0 <= k < |x|
      ensures x[k] == y[k]
    {
    }
  }

  /** With two en dashes, the pieces before and between them make the link. */
  lemma ResourceViewOfThree(a: string, b: string, more: string)
    requires EnDash !in a && EnDash !in b
    ensures ResourceView(a + [EnDash] + b + [EnDash] + more) == Anchor(Trim(a), Trim(b))
  {
    var s := a + [EnDash] + b + [EnDash] + more;
    var parts := Split(s, EnDash);
    assert |parts| >= 2 && parts[0] == a && parts[1] == b by {
      assert s == a + [EnDash] + (b + [EnDash] + more);
      SplitAtFirst(a, EnDash, b + [EnDash] + more);
      SplitAtFirst(b, EnDash, more);
    }
  }

  /** "a – b" splits on the en dash into "a " and " b" when neither holds one. */
  lemma SplitPair(a: string, b: string)
    requires EnDash !in a && EnDash !in b
    ensures Split(a + [' ', EnDash, ' '] + b, EnDash) == [a + [' '], [' '] + b]
  {
    var left, right := a + [' '], [' '] + b;
    var parts := [left, right];
    assert parts[1..] == [right];
    assert Join(parts, EnDash) == left + [EnDash] + right == a + [' ', EnDash, ' '] + b;
    SplitJoin(parts, EnDash);
  }

  /** Trimming drops the one space after a string without outer white space. */
  lemma TrimSpaceAfter(a: string)
    requires NoOuterSpace(a)
    ensures Trim(a + [' ']) == a
  {
    assert AllSpace([' ']);
    TrimPadded([], a, [' ']);
    assert [] + a + [' '] == a + [' '];
  }

  /** Trimming drops the one space before a string without outer white space. */
  lemma TrimSpaceBefore(b: string)
    requires NoOuterSpace(b)
    ensures Trim([' '] + b) == b
  {
    assert AllSpace([' ']);
    TrimPadded([' '], b, []);
    assert [' '] + b + [] == [' '] + b;
  }

  /**
   * The two cards agree on a resource written as the prompt asks: the title
   * labels the link and the URL is its target.
   */
  lemma CardsAgree(title: string, scheme: string, host: string)
    requires scheme == Http || scheme == Https
    requires host != [] && forall k :: 0 <= k < |host| ==> !IsSpace(host[k]) && host[k] != EnDash
    requires NoOuterSpace(title) && ':' !in title && EnDash !in title
    requires title != [] ==> !IsSeparator(title[|title| - 1])
    ensures ExtractLink(title + [' ', EnDash, ' '] + (scheme + host)) == Link(title, Some(scheme + host))
    ensures ResourceView(title + [' ', EnDash, ' '] + (scheme + host)) == Anchor(title, scheme + host)
  {
    LinkRoundTrip(title, scheme, host);
    UrlShape(scheme, host);
    ResourceViewOfPair(title, scheme + host);
  }

  /** A URL of a scheme and a host without dashes or white space has neither outer white space nor an en dash. */
  lemma UrlShape(scheme: string, host: string)
    requires scheme == Http || scheme == Https
    requires host != [] && forall k :: 0 <= k < |host| ==> !IsSpace(host[k]) && host[k] != EnDash
    ensures NoOuterSpace(scheme + host) && EnDash !in scheme + host
  {
    var url := scheme + host;
    assert url[0] == 'h' && url[|url| - 1] == host[|host| - 1];
    forall k | 0 <= k < |url|
      ensures url[k] != EnDash
    {
      if k >= |scheme| {
        assert url[k] == host[k - |scheme|];
      }
    }
  }
}
