/** Python's whitespace stripping (`str.strip()`), which bs4's `get_text(strip=True)`
    applies to every string it collects and the converter applies to date strings. */
module Text {

  /** The characters for which Python's `str.isspace()` holds. */
  predicate IsSpace(c: char)
  {
    ('\t' <= c <= '\r') || ('\U{1C}' <= c <= '\U{1F}') || c == ' ' ||
    c == '\U{85}' || c == '\U{A0}' || c == '\U{1680}' ||
    ('\U{2000}' <= c <= '\U{200A}') || c == '\U{2028}' || c == '\U{2029}' ||
    c == '\U{202F}' || c == '\U{205F}' || c == '\U{3000}'
  }

  predicate AllSpace(s: string)
  {
    forall i :: 0 <= i < |s| ==> IsSpace(s[i])
  }

  /** Neither the first nor the last character of `s` is whitespace. */
  predicate Trimmed(s: string)
  {
    s == [] || (!IsSpace(s[0]) && !IsSpace(s[|s| - 1]))
  }

  /** `s.lstrip()`: the longest suffix of `s` that does not start with whitespace. */
  function TrimStart(s: string): (r: string)
    ensures |r| <= |s| && r == s[|s| - |r|..]
    ensures AllSpace(s[..|s| - |r|])
    ensures r == [] || !IsSpace(r[0])
  {
    if s != [] && IsSpace(s[0]) then TrimStart(s[1..]) else s
  }

  /** `s.rstrip()`: the longest prefix of `s` that does not end with whitespace. */
  function TrimEnd(s: string): (r: string)
    ensures |r| <= |s| && r == s[..|r|]
    ensures AllSpace(s[|r|..])
    ensures r == [] || !IsSpace(r[|r| - 1])
  {
    if s != [] && IsSpace(s[|s| - 1]) then TrimEnd(s[..|s| - 1]) else s
  }

  /** `s.strip()`. */
  function Strip(s: string): (r: string)
    ensures Trimmed(r)
    ensures |r| <= |s|
  {
    TrimEnd(TrimStart(s))
  }

  /** Stripping removes exactly the whitespace around a trimmed core, whatever
      that whitespace is: `Strip` is determined by the three-part split. */
  lemma {:induction false} StripSplit(lead: string, core: string, trail: string)
    requires AllSpace(lead) && AllSpace(trail) && Trimmed(core)
    ensures Strip(lead + core + trail) == core
  {
    if core == [] {
      var s := lead + trail;
      assert lead + core + trail == s;
      assert AllSpace(s) by {
        forall i | 0 <= i < |s| ensures IsSpace(s[i]) {
          if i < |lead| { assert s[i] == lead[i]; } else { assert s[i] == trail[i - |lead|]; }
        }
      }
      assert TrimStart(s) == [] by {
        var t := TrimStart(s);
        assert t == s[|s| - |t|..];
      }
    } else {
      assert lead + core + trail == lead + (core + trail);
      TrimStartSplit(lead, core + trail);
      TrimEndSplit(core, trail);
    }
  }

  lemma {:induction false} TrimStartSplit(lead: string, rest: string)
    requires AllSpace(lead) && (rest == [] || !IsSpace(rest[0]))
    ensures TrimStart(lead + rest) == rest
    decreases |lead|
  {
    if lead != [] {
      assert (lead + rest)[1..] == lead[1..] + rest;
      TrimStartSplit(lead[1..], rest);
    } else {
      assert lead + rest == rest;
    }
  }

  lemma {:induction false} TrimEndSplit(core: string, trail: string)
    requires AllSpace(trail) && (core == [] || !IsSpace(core[|core| - 1]))
    ensures TrimEnd(core + trail) == core
    decreases |trail|
  {
    if trail != [] {
      var s := core + trail;
      assert s[..|s| - 1] == core + trail[..|trail| - 1];
      TrimEndSplit(core, trail[..|trail| - 1]);
    } else {
      assert core + trail == core;
    }
  }

  /** A string strips to nothing exactly when it is all whitespace. */
  lemma StripEmptyIff(s: string)
    ensures Strip(s) == [] <==> AllSpace(s)
  {
    if AllSpace(s) {
      assert s == s + [] + [];
      StripSplit(s, [], []);
    }
    if Strip(s) == [] {
      var t := TrimStart(s);
      var n := |s| - |t|;
      assert t[0..] == t;
      forall k | 0 <= k < |s| ensures IsSpace(s[k]) {
        if k < n { assert s[..n][k] == s[k]; } else { assert t[k - n] == s[k]; }
      }
    }
  }

  /** Stripping twice is stripping once. */
  lemma StripIdempotent(s: string)
    ensures Strip(Strip(s)) == Strip(s)
  {
    var r := Strip(s);
    assert [] + r + [] == r;
    StripSplit([], r, []);
  }
}
