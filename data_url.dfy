/**
 * The prefix strip of the upload form: `dataUrl.split(',')[1]`. A data URL
 * (RFC 2397) produced for a file is `data:<type>;base64,<payload>`, and the
 * payload alphabet of Base64 (section 4 of RFC 4648) has no comma, so the
 * second comma-separated segment is the Base64 payload.
 */
module DataUrl {
  import opened Wrappers

  const Separator: char := ','

  /**
   * JavaScript's `s.split(',')`: the maximal comma-free segments of `s`, in
   * order. There is always at least one segment (`"".split(',')` is `[""]`),
   * and there is more than one exactly when `s` holds a comma.
   */
  function Split(s: string): (parts: seq<string>)
    ensures |parts| >= 1
    ensures forall i :: 0 <= i < |parts| ==> Separator !in parts[i]
    ensures |parts| >= 2 <==> Separator in s
    decreases |s|
  {
    if s == [] then [[]]
    else if s[0] == Separator then [[]] + Split(s[1..])
    else
      var rest := Split(s[1..]);
      assert Separator in s <==> Separator in s[1..] by {
        assert s == [s[0]] + s[1..];
      }
      [[s[0]] + rest[0]] + rest[1..]
  }

  /** `parts.join(',')`: the segments with a comma between each two. */
  function Join(parts: seq<string>): string
    requires |parts| >= 1
    decreases |parts|
  {
    if |parts| == 1 then parts[0] else parts[0] + [Separator] + Join(parts[1..])
  }

  /** Putting a character in front of the first segment puts it in front of the join. */
  lemma {:induction false} JoinConsFirst(c: char, parts: seq<string>)
    requires |parts| >= 1
    ensures Join([[c] + parts[0]] + parts[1..]) == [c] + Join(parts)
  {
  }

  /** Joining the segments of a split gives back the string. */
  lemma {:induction false} JoinSplit(s: string)
    ensures Join(Split(s)) == s
    decreases |s|
  {
    if s != [] {
      var rest := Split(s[1..]);
      JoinSplit(s[1..]);
      assert s == [s[0]] + s[1..];
      if s[0] == Separator {
        assert Split(s) == [[]] + rest;
        assert ([[]] + rest)[1..] == rest;
      } else {
        assert Split(s) == [[s[0]] + rest[0]] + rest[1..];
        JoinConsFirst(s[0], rest);
      }
    }
  }

  /** Splitting `p + t`, for a comma-free `p`, glues `p` to the first segment of `t`. */
  lemma {:induction false} SplitAfterSegment(p: string, t: string)
    requires Separator !in p
    ensures Split(p + t) == [p + Split(t)[0]] + Split(t)[1..]
    decreases |p|
  {
    if p == [] {
      assert p + t == t;
      assert p + Split(t)[0] == Split(t)[0];
      assert Split(t) == [Split(t)[0]] + Split(t)[1..];
    } else {
      SplitAfterSegment(p[1..], t);
      assert (p + t)[0] == p[0] && (p + t)[1..] == p[1..] + t;
      var rest := Split(p[1..] + t);
      assert Split(p + t) == [[p[0]] + rest[0]] + rest[1..];
      assert [p[0]] + (p[1..] + Split(t)[0]) == p + Split(t)[0];
    }
  }

  /** Splitting after a comma starts a new, empty segment. */
  lemma {:induction false} SplitAfterSeparator(t: string)
    ensures Split([Separator] + t) == [[]] + Split(t)
  {
    assert ([Separator] + t)[1..] == t;
  }

  /** Splitting a join of comma-free segments gives back the segments. */
  lemma {:induction false} SplitJoin(parts: seq<string>)
    requires |parts| >= 1
    requires forall i :: 0 <= i < |parts| ==> Separator !in parts[i]
    ensures Split(Join(parts)) == parts
    decreases |parts|
  {
    SplitAfterSegment(parts[0], []);
    assert parts[0] + [] == parts[0];
    if |parts| > 1 {
      var tail := Join(parts[1..]);
      SplitJoin(parts[1..]);
      assert parts[0] + [Separator] + tail == parts[0] + ([Separator] + tail);
      SplitAfterSegment(parts[0], [Separator] + tail);
      SplitAfterSeparator(tail);
      assert Split([Separator] + tail)[1..] == parts[1..];
    }
  }

  /**
   * The strip at line 25: the second comma-separated segment, or `None` (the
   * source's `undefined`) when `dataUrl` holds no comma. The result, when
   * present, holds no comma.
   */
  function StripPrefix(dataUrl: string): (payload: Option<string>)
    ensures payload.Some? <==> Separator in dataUrl
    ensures payload.Some? ==> Separator !in payload.value
  {
    var parts := Split(dataUrl);
    if |parts| >= 2 then Some(parts[1]) else None
  }

  /**
   * The result is exactly the segment between the first and the second comma
   * (or the end): for a comma-free `header` and `payload`, and a `rest` that
   * is empty or starts at the second comma, `header,payload<rest>` strips to
   * `payload`.
   */
  lemma {:induction false} StripPrefixSegment(header: string, payload: string, rest: string)
    requires Separator !in header && Separator !in payload
    requires rest == [] || rest[0] == Separator
    ensures StripPrefix(header + [Separator] + payload + rest) == Some(payload)
  {
    var url := header + [Separator] + payload + rest;
    assert url == header + ([Separator] + (payload + rest));
    SplitAfterSegment(header, [Separator] + (payload + rest));
    SplitAfterSeparator(payload + rest);
    SplitAfterSegment(payload, rest);
    assert Split(rest)[0] == [] by {
      if rest != [] {
        assert Split(rest) == [[]] + Split(rest[1..]);
      }
    }
    assert payload + [] == payload;
  }

  /** A data URL `header,payload` with a comma-free header and Base64 payload strips to the payload. */
  lemma StripDataUrl(header: string, payload: string)
    requires Separator !in header && Separator !in payload
    ensures StripPrefix(header + [Separator] + payload) == Some(payload)
  {
    StripPrefixSegment(header, payload, []);
    assert header + [Separator] + payload + [] == header + [Separator] + payload;
  }
}
