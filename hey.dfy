/**
 * The session helpers of the hey.com client: the multipart `files` shape,
 * the Cookie header, and the two scraping loops that turn the pending-senders
 * page into a set of sender keys and the home page into subscription channels.
 * The HTML itself is not modelled: each loop receives what BeautifulSoup would
 * have extracted, element by element, in document order.
 */
module Hey {
  import opened Wrappers
  import opened Text

  const UserAgent := "Hey Minion/1.0"
  const Origin := "https://app.hey.com"

  // ---------------------------------------------------------------- files

  /** One multipart form field as requests takes it: (filename, value). */
  datatype FormPart = FormPart(filename: Option<string>, value: string)

  /** `files(**kwargs)`: every keyword becomes a field with no filename. */
  function Files(kwargs: map<string, string>): (r: map<string, FormPart>)
    ensures r.Keys == kwargs.Keys
    ensures |r| == |kwargs|
    ensures forall k :: k in r ==> r[k].filename == None
  {
    var r := map k | k in kwargs :: FormPart(None, kwargs[k]);
    assert r.Keys == kwargs.Keys;
    r
  }

  /** The values a multipart request would send, by field name. */
  function FieldValues(parts: map<string, FormPart>): (r: map<string, string>)
  {
    map k | k in parts :: parts[k].value
  }

  /** Files loses nothing: reading the field values back gives the keywords. */
  lemma FilesRoundTrip(kwargs: map<string, string>)
    ensures FieldValues(Files(kwargs)) == kwargs
  {
  }

  // ---------------------------------------------------------------- cookie header

  /** A cookie of the session's jar, as (name, value). */
  type Cookie = (string, string)

  /** `f'{name}={value}'`: when the name holds no '=', the first '=' ends it. */
  function CookieEntry(c: Cookie): (r: string)
    ensures |r| > |c.0| && r[..|c.0|] == c.0
    ensures '=' !in c.0 ==> IndexOf(r, '=') == Some(|c.0|)
  {
    var r := c.0 + ("=" + c.1);
    assert '=' !in c.0 ==> IndexOf(r, '=') == Some(|c.0|) by {
      if '=' !in c.0 {
        IndexOfAfter(c.0, "=" + c.1, '=');
      }
    }
    assert r == c.0 + "=" + c.1;
    r
  }

  /** `get_cookie`: the jar's entries, in iteration order, joined by "; ". */
  function CookieHeader(jar: seq<Cookie>): (r: string)
    ensures jar == [] ==> r == ""
    ensures |jar| == 1 ==> r == jar[0].0 + "=" + jar[0].1
    ensures jar != [] ==> r != ""
  {
    Join(seq(|jar|, i requires 0 <= i < |jar| => CookieEntry(jar[i])), "; ")
  }

  /** Cookies whose names and values can sit in a Cookie header unambiguously. */
  predicate HeaderSafe(jar: seq<Cookie>)
  {
    forall i :: 0 <= i < |jar| ==> '=' !in jar[i].0 && ';' !in jar[i].0 && ';' !in jar[i].1
  }

  /** A Cookie header split at every "; ". */
  function Entries(header: string): (r: seq<string>)
    ensures |r| >= 1
    decreases |header|
  {
    match IndexOf(header, ';')
    case None => [header]
    case Some(i) =>
      var rest := if i + 2 <= |header| then header[i + 2..] else [];
      [header[..i]] + Entries(rest)
  }

  /** One "name=value" entry split at its first '='. */
  function SplitEntry(entry: string): Cookie
  {
    match IndexOf(entry, '=')
    case None => (entry, "")
    case Some(i) => (entry[..i], entry[i + 1..])
  }

  /** Parses a Cookie header back into its cookies. */
  function ParseCookieHeader(header: string): (r: seq<Cookie>)
  {
    if header == "" then []
    else
      var es := Entries(header);
      seq(|es|, i requires 0 <= i < |es| => SplitEntry(es[i]))
  }

  /** Splitting a header whose first entry is free of ';' peels that entry off. */
  lemma EntriesStep(first: string, tail: string)
    requires ';' !in first
    ensures Entries(first + "; " + tail) == [first] + Entries(tail)
  {
    var h := first + ("; " + tail);
    assert first + "; " + tail == h;
    IndexOfAfter(first, "; " + tail, ';');
    assert h[..|first|] == first;
    assert h[|first| + 2..] == tail;
  }

  lemma {:induction false} EntriesOfJoin(parts: seq<string>)
    requires |parts| >= 1
    requires forall i :: 0 <= i < |parts| ==> ';' !in parts[i]
    ensures Entries(Join(parts, "; ")) == parts
  {
    if |parts| > 1 {
      var tail := Join(parts[1..], "; ");
      assert Join(parts, "; ") == parts[0] + "; " + tail;
      assert ';' !in parts[0];
      EntriesStep(parts[0], tail);
      assert forall i :: 0 <= i < |parts[1..]| ==> parts[1..][i] == parts[i + 1];
      EntriesOfJoin(parts[1..]);
      assert parts == [parts[0]] + parts[1..];
    }
  }

  lemma SplitEntryOf(c: Cookie)
    requires '=' !in c.0
    ensures SplitEntry(CookieEntry(c)) == c
  {
    var e := c.0 + ("=" + c.1);
    assert CookieEntry(c) == e;
    IndexOfAfter(c.0, "=" + c.1, '=');
    assert e[..|c.0|] == c.0;
    assert e[|c.0| + 1..] == c.1;
  }

  /** The Cookie header determines the jar: parsing it gives the cookies back, in order. */
  lemma CookieHeaderRoundTrip(jar: seq<Cookie>)
    requires HeaderSafe(jar)
    ensures ParseCookieHeader(CookieHeader(jar)) == jar
  {
    if jar != [] {
      var entries := seq(|jar|, i requires 0 <= i < |jar| => CookieEntry(jar[i]));
      forall i | 0 <= i < |entries| ensures ';' !in entries[i] {
        assert entries[i] == jar[i].0 + "=" + jar[i].1;
      }
      EntriesOfJoin(entries);
      forall i | 0 <= i < |jar| ensures SplitEntry(entries[i]) == jar[i] {
        SplitEntryOf(jar[i]);
      }
    }
  }

  /** The header holds each cookie's characters, one '=' per cookie and n - 1 "; " separators. */
  lemma CookieHeaderLength(jar: seq<Cookie>)
    requires jar != []
    ensures |CookieHeader(jar)| == TotalLength(seq(|jar|, i requires 0 <= i < |jar| => CookieEntry(jar[i]))) + 2 * (|jar| - 1)
  {
    JoinLength(seq(|jar|, i requires 0 <= i < |jar| => CookieEntry(jar[i])), "; ");
  }

  // ---------------------------------------------------------------- senders

  /** `spans[0].text + ' ' + spans[1].text.strip()`: the key starts with the name and a space. */
  function SenderKey(name: string, hint: string): (r: string)
    ensures |r| > |name| && r[..|name| + 1] == name + " "
  {
    var r := name + " " + Strip(hint);
    assert r[|name| + 1..] == Strip(hint);
    r
  }

  /**
   * The hint part of a key has no whitespace at either end: it is a contiguous
   * piece of the hint with only whitespace dropped around it, and stripping it
   * again changes nothing.
   */
  lemma SenderKeyShape(name: string, hint: string)
    ensures var h, i := SenderKey(name, hint)[|name| + 1..], |hint| - |StripStart(hint)|;
      && (h == [] || (!IsSpace(h[0]) && !IsSpace(h[|h| - 1])))
      && i + |h| <= |hint| && h == hint[i..i + |h|]
      && (forall k :: 0 <= k < i ==> IsSpace(hint[k]))
      && (forall k :: i + |h| <= k < |hint| ==> IsSpace(hint[k]))
      && Strip(h) == h
  {
    var h := SenderKey(name, hint)[|name| + 1..];
    assert h == Strip(hint);
    StripInfix(hint);
    StripIdempotent(hint);
  }

  /** Why scraping gave up: Python's IndexError or KeyError, at the element's position. */
  datatype ScrapeError = IndexError(element: nat) | KeyError(element: nat)

  /** Every sender heading has the two spans the key is made of. */
  predicate AllHaveTwoSpans(headings: seq<seq<string>>)
  {
    forall i :: 0 <= i < |headings| ==> |headings[i]| >= 2
  }

  /** The key of one sender heading, from its first two spans. */
  function KeyOf(spans: seq<string>): string
    requires |spans| >= 2
  {
    SenderKey(spans[0], spans[1])
  }

  /** The keys of the headings, in document order (duplicates kept). */
  function Keys(headings: seq<seq<string>>): seq<string>
    requires AllHaveTwoSpans(headings)
  {
    seq(|headings|, i requires 0 <= i < |headings| => KeyOf(headings[i]))
  }

  /** The set a loop of `add` calls builds from `s`, element by element. */
  function Elements<T>(s: seq<T>): set<T>
  {
    if s == [] then {} else Elements(s[..|s| - 1]) + {s[|s| - 1]}
  }

  /** What the scraping loop returns: the set of the headings' keys. */
  function Senders(headings: seq<seq<string>>): set<string>
    requires AllHaveTwoSpans(headings)
  {
    Elements(Keys(headings))
  }

  /**
   * `get_unscreened_senders` after the page has been fetched and parsed:
   * `headings[i]` holds the texts of the spans of the i-th `h3.clearance__sender`.
   */
  method UnscreenedSenders(headings: seq<seq<string>>) returns (r: Result<set<string>, ScrapeError>)
    ensures r.Ok? <==> AllHaveTwoSpans(headings)
    ensures r.Ok? ==> r.value == Senders(headings)
    ensures r.Err? ==>
      && r.error.IndexError? && r.error.element < |headings|
      && |headings[r.error.element]| < 2
      && AllHaveTwoSpans(headings[..r.error.element])
  {
    var senders: set<string> := {};
    ghost var keys: seq<string> := [];
    var i := 0;
    while i < |headings|
      invariant 0 <= i <= |headings|
      invariant AllHaveTwoSpans(headings[..i])
      invariant |keys| == i && forall k :: 0 <= k < i ==> keys[k] == KeyOf(headings[k])
      invariant senders == Elements(keys)
    {
      var spans := headings[i];
      if |spans| < 2 {
        return Err(IndexError(i));
      }
      var key := KeyOf(spans);
      assert (keys + [key])[..i] == keys;
      senders := senders + {key};
      keys := keys + [key];
      i := i + 1;
    }
    assert headings[..i] == headings;
    assert |Keys(headings)| == |keys|;
    assert forall k :: 0 <= k < |keys| ==> Keys(headings)[k] == keys[k];
    assert keys == Keys(headings);
    return Ok(senders);
  }

  /** Exactly the elements of the sequence end up in the set. */
  lemma {:induction false} ElementsMembership<T>(s: seq<T>, x: T)
    ensures x in Elements(s) <==> x in s
  {
    if s != [] {
      ElementsMembership(s[..|s| - 1], x);
      assert s == s[..|s| - 1] + [s[|s| - 1]];
    }
  }

  /** The set has at most as many elements as the sequence. */
  lemma {:induction false} ElementsBound<T>(s: seq<T>)
    ensures |Elements(s)| <= |s|
  {
    if s != [] {
      ElementsBound(s[..|s| - 1]);
    }
  }

  /** A repeated element makes the set strictly smaller than the sequence. */
  lemma {:induction false} ElementsCollapse<T>(s: seq<T>, i: nat, j: nat)
    requires i < j < |s| && s[i] == s[j]
    ensures |Elements(s)| < |s|
  {
    var n := |s| - 1;
    var prefix := s[..n];
    if j == n {
      assert prefix[i] == s[j];
      ElementsMembership(prefix, s[j]);
      ElementsBound(prefix);
      assert Elements(s) == Elements(prefix);
    } else {
      assert prefix[i] == s[i] && prefix[j] == s[j];
      ElementsCollapse(prefix, i, j);
    }
  }

  /** A key is pending exactly when some heading produces it. */
  lemma SendersMembership(headings: seq<seq<string>>, key: string)
    requires AllHaveTwoSpans(headings)
    ensures key in Senders(headings) <==> exists i :: 0 <= i < |headings| && key == KeyOf(headings[i])
  {
    var keys := Keys(headings);
    assert |keys| == |headings| && forall i :: 0 <= i < |keys| ==> keys[i] == KeyOf(headings[i]);
    ElementsMembership(keys, key);
    if key in keys {
      var i :| 0 <= i < |keys| && keys[i] == key;
      assert key == KeyOf(headings[i]);
    }
  }

  /** There are never more pending senders than headings. */
  lemma SendersBound(headings: seq<seq<string>>)
    requires AllHaveTwoSpans(headings)
    ensures |Senders(headings)| <= |headings|
  {
    ElementsBound(Keys(headings));
  }

  /** Two headings with the same key collapse into one element. */
  lemma SendersCollapse(headings: seq<seq<string>>, i: nat, j: nat)
    requires AllHaveTwoSpans(headings)
    requires i < j < |headings|
    requires KeyOf(headings[i]) == KeyOf(headings[j])
    ensures |Senders(headings)| < |headings|
  {
    ElementsCollapse(Keys(headings), i, j);
  }

  // ---------------------------------------------------------------- channels

  /**
   * `get_channels` after the page has been fetched and parsed: `tags[i]` is the
   * channel attribute of the i-th subscription meta tag, None when the tag has none.
   */
  method Channels(tags: seq<Option<string>>) returns (r: Result<seq<string>, ScrapeError>)
    ensures r.Ok? <==> forall i :: 0 <= i < |tags| ==> tags[i].Some?
    ensures r.Ok? ==> |r.value| == |tags| && forall i :: 0 <= i < |tags| ==> r.value[i] == tags[i].value
    ensures r.Err? ==>
      && r.error.KeyError? && r.error.element < |tags|
      && tags[r.error.element].None?
      && forall i :: 0 <= i < r.error.element ==> tags[i].Some?
  {
    var channels: seq<string> := [];
    var i := 0;
    while i < |tags|
      invariant 0 <= i <= |tags|
      invariant forall k :: 0 <= k < i ==> tags[k].Some?
      invariant |channels| == i && forall k :: 0 <= k < i ==> channels[k] == tags[k].value
    {
      if tags[i].None? {
        return Err(KeyError(i));
      }
      channels := channels + [tags[i].value];
      i := i + 1;
    }
    return Ok(channels);
  }
}
