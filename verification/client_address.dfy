/** The client address recorded with every admin action: the first hop of
    an `X-Forwarded-For` header when the header is present and non-empty,
    otherwise the peer address of the connection. */
module ClientAddress {
  import opened Wrappers

  /** Python's `str.isspace()`, the set of characters `str.strip()` removes. */
  predicate IsWhitespace(c: char) {
    var n := c as int;
    (9 <= n <= 13) || (28 <= n <= 32) || n == 0x85 || n == 0xA0 || n == 0x1680
    || (0x2000 <= n <= 0x200A) || n == 0x2028 || n == 0x2029 || n == 0x202F
    || n == 0x205F || n == 0x3000
  }

  predicate AllWhitespace(s: string) {
    forall i :: 0 <= i < |s| ==> IsWhitespace(s[i])
  }

  /** Python's `s.split(sep)[0]`: the text before the first `sep`. */
  function FirstSegment(s: string, sep: char): (r: string)
    ensures sep !in r
    ensures |r| <= |s| && r == s[..|r|]
    ensures |r| < |s| ==> s[|r|] == sep
  {
    if |s| == 0 || s[0] == sep then "" else [s[0]] + FirstSegment(s[1..], sep)
  }

  function TrimStart(s: string): (r: string)
    ensures |r| <= |s| && r == s[|s| - |r|..]
    ensures AllWhitespace(s[..|s| - |r|])
    ensures |r| > 0 ==> !IsWhitespace(r[0])
  {
    if |s| > 0 && IsWhitespace(s[0]) then TrimStart(s[1..]) else s
  }

  function TrimEnd(s: string): (r: string)
    ensures |r| <= |s| && r == s[..|r|]
    ensures AllWhitespace(s[|r|..])
    ensures |r| > 0 ==> !IsWhitespace(r[|r| - 1])
  {
    if |s| > 0 && IsWhitespace(s[|s| - 1]) then TrimEnd(s[..|s| - 1]) else s
  }

  /** Python's `str.strip()`. */
  function Strip(s: string): (r: string) {
    TrimEnd(TrimStart(s))
  }

  /** `get_client_ip`: an absent or empty header falls back to the peer. */
  function GetClientIp(forwardedFor: Option<string>, peer: Option<string>): (r: Option<string>)
    ensures forwardedFor.None? || forwardedFor.value == [] ==> r == peer
    ensures forwardedFor.Some? && forwardedFor.value != [] ==>
      && r.Some?
      && ',' !in r.value
      && (|r.value| > 0 ==> !IsWhitespace(r.value[0]) && !IsWhitespace(r.value[|r.value| - 1]))
      && |r.value| <= |forwardedFor.value|
  {
    match forwardedFor
    case Some(header) =>
      if header != [] then Some(Strip(FirstSegment(header, ','))) else peer
    case None => peer
  }

  lemma {:induction false} FirstSegmentOfPrefix(hop: string, tail: string)
    requires ',' !in hop
    requires tail == [] || tail[0] == ','
    ensures FirstSegment(hop + tail, ',') == hop
  {
    if hop == [] {
      assert hop + tail == tail;
    } else {
      assert (hop + tail)[0] == hop[0];
      assert (hop + tail)[1..] == hop[1..] + tail;
      FirstSegmentOfPrefix(hop[1..], tail);
    }
  }

  lemma {:induction false} TrimStartSkipsWhitespace(lead: string, rest: string)
    requires AllWhitespace(lead)
    requires |rest| > 0 && !IsWhitespace(rest[0])
    ensures TrimStart(lead + rest) == rest
  {
    if lead == [] {
      assert lead + rest == rest;
    } else {
      assert (lead + rest)[0] == lead[0];
      assert (lead + rest)[1..] == lead[1..] + rest;
      TrimStartSkipsWhitespace(lead[1..], rest);
    }
  }

  lemma {:induction false} TrimEndSkipsWhitespace(rest: string, trail: string)
    requires AllWhitespace(trail)
    requires |rest| > 0 && !IsWhitespace(rest[|rest| - 1])
    ensures TrimEnd(rest + trail) == rest
  {
    if trail == [] {
      assert rest + trail == rest;
    } else {
      var s := rest + trail;
      assert s[|s| - 1] == trail[|trail| - 1];
      assert s[..|s| - 1] == rest + trail[..|trail| - 1];
      TrimEndSkipsWhitespace(rest, trail[..|trail| - 1]);
    }
  }

  lemma StripPadded(lead: string, hop: string, trail: string)
    requires AllWhitespace(lead) && AllWhitespace(trail)
    requires |hop| > 0 && !IsWhitespace(hop[0]) && !IsWhitespace(hop[|hop| - 1])
    ensures Strip(lead + hop + trail) == hop
  {
    assert lead + hop + trail == lead + (hop + trail);
    TrimStartSkipsWhitespace(lead, hop + trail);
    TrimEndSkipsWhitespace(hop, trail);
  }

  /** Whatever whitespace pads the first hop and whatever follows the first
      comma, the recorded address is exactly that hop. */
  lemma FirstHopRecovered(lead: string, hop: string, trail: string, tail: string, peer: Option<string>)
    requires AllWhitespace(lead) && AllWhitespace(trail)
    requires ',' !in lead && ',' !in hop && ',' !in trail
    requires |hop| > 0 && !IsWhitespace(hop[0]) && !IsWhitespace(hop[|hop| - 1])
    requires tail == [] || tail[0] == ','
    ensures GetClientIp(Some(lead + hop + trail + tail), peer) == Some(hop)
  {
    var first := lead + hop + trail;
    assert ',' !in first by {
      forall i | 0 <= i < |first| ensures first[i] != ',' {
        if i < |lead| { assert first[i] == lead[i]; }
        else if i < |lead| + |hop| { assert first[i] == hop[i - |lead|]; }
        else { assert first[i] == trail[i - |lead| - |hop|]; }
      }
    }
    FirstSegmentOfPrefix(first, tail);
    StripPadded(lead, hop, trail);
  }

  lemma TrimStartOfBlank(s: string)
    requires AllWhitespace(s)
    ensures TrimStart(s) == []
  {
  }

  /** A header whose first element is blank, such as `" "` or `", 10.0.0.1"`,
      is still a non-empty header: the recorded address is the empty string,
      not the peer. */
  lemma BlankFirstHop(header: string, peer: Option<string>)
    requires header != [] && AllWhitespace(FirstSegment(header, ','))
    ensures GetClientIp(Some(header), peer) == Some([])
  {
    TrimStartOfBlank(FirstSegment(header, ','));
  }
}
