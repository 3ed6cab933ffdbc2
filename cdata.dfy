/** The literal-text wrapping of an entry's content: every `]]>` is split as
    `]]]]><![CDATA[>` and the result is wrapped in one `<![CDATA[ ... ]]>`,
    so the wrapped text is a run of CDATA sections whose bodies, read back
    as XML reads them, join up to the original text. */
module CData {
  import opened Wrappers

  const Open := "<![CDATA["
  const Close := "]]>"
  /** What each `]]>` of the content is replaced with: the first two
      characters end one section, the `>` starts the next one. */
  const SplitClose := "]]]]><![CDATA[>"

  /** `s` has the section terminator `]]>` starting at index `i`. */
  predicate TermAt(s: string, i: int)
  {
    0 <= i && i + 3 <= |s| && s[i] == ']' && s[i + 1] == ']' && s[i + 2] == '>'
  }

  /** `"]]>" not in s`. */
  predicate NoTerm(s: string)
  {
    forall i :: 0 <= i < |s| ==> !TermAt(s, i)
  }

  /** `s.replace("]]>", "]]]]><![CDATA[>")`: Python replaces the occurrences
      left to right, never re-examining replaced text. */
  function Escape(s: string): string
    decreases |s|
  {
    if s == [] then []
    else if TermAt(s, 0) then SplitClose + Escape(s[3..])
    else [s[0]] + Escape(s[1..])
  }

  /** `f"<![CDATA[{safe_html}]]>"` with `safe_html` the escaped content. */
  function Wrap(raw: string): (r: string)
    ensures |r| >= |Open| + |raw| + |Close|
    ensures r[..|Open|] == Open && r[|r| - |Close|..] == Close
  {
    EscapeLength(raw);
    Open + Escape(raw) + Close
  }

  /** The first index at or after `from` where `]]>` starts. */
  function FindTerm(s: string, from: nat): (r: Option<nat>)
    requires from <= |s|
    ensures r.Some? ==> from <= r.value && TermAt(s, r.value)
    ensures r.Some? ==> forall j :: from <= j < r.value ==> !TermAt(s, j)
    ensures r.None? ==> forall j :: from <= j ==> !TermAt(s, j)
    decreases |s| - from
  {
    if from + 3 > |s| then None
    else if TermAt(s, from) then Some(from)
    else FindTerm(s, from + 1)
  }

  /** How an XML parser reads a run of CDATA sections: each is `<![CDATA[`,
      then text up to the first `]]>`, then that `]]>`. The bodies, in order;
      None when `s` is not such a run. No body can contain `]]>`. */
  function Sections(s: string): (r: Option<seq<string>>)
    ensures r.Some? ==> forall b :: b in r.value ==> NoTerm(b)
    decreases |s|
  {
    if s == [] then Some([])
    else if !(|s| >= |Open| && s[..|Open|] == Open) then None
    else
      var body := s[|Open|..];
      match FindTerm(body, 0)
      case None => None
      case Some(k) =>
        assert NoTerm(body[..k]) by {
          forall j ensures !TermAt(body[..k], j) {
            if TermAt(body[..k], j) { assert TermAt(body, j); }
          }
        }
        match Sections(body[k + 3..])
        case None => None
        case Some(rest) => Some([body[..k]] + rest)
  }

  /** The strings of `bs` joined end to end. */
  function Concat(bs: seq<string>): string
  {
    if bs == [] then "" else bs[0] + Concat(bs[1..])
  }

  /** Text without `]]>` passes through the escape unchanged. */
  lemma {:induction false} EscapeIdentity(raw: string)
    requires NoTerm(raw)
    ensures Escape(raw) == raw
    decreases |raw|
  {
    if raw != [] {
      NoTermTail(raw);
      EscapeIdentity(raw[1..]);
    }
  }

  /** The escape lengthens every text that holds a `]]>`, so it is the
      identity exactly on the texts without one. */
  lemma EscapeIdentityIff(raw: string)
    ensures Escape(raw) == raw <==> NoTerm(raw)
  {
    EscapeLength(raw);
    if NoTerm(raw) {
      EscapeIdentity(raw);
    }
  }

  lemma {:induction false} EscapeLength(s: string)
    ensures |Escape(s)| >= |s|
    ensures !NoTerm(s) ==> |Escape(s)| > |s|
    decreases |s|
  {
    if s != [] {
      if TermAt(s, 0) {
        EscapeLength(s[3..]);
      } else {
        EscapeLength(s[1..]);
        if !NoTerm(s) {
          var i :| 0 <= i < |s| && TermAt(s, i);
          assert i >= 1;
          assert s[1..][i - 1] == s[i] && s[1..][i] == s[i + 1] && s[1..][i + 1] == s[i + 2];
          assert TermAt(s[1..], i - 1);
        }
      }
    }
  }

  lemma NoTermTail(s: string)
    requires s != [] && NoTerm(s)
    ensures NoTerm(s[1..])
  {
    forall i ensures !TermAt(s[1..], i) {
      if TermAt(s[1..], i) { assert TermAt(s, i + 1); }
    }
  }

  /** The wrapped content is a run of CDATA sections; reading it back gives
      section bodies that hold no `]]>` and that join up to the original. */
  lemma WrapRoundTrip(raw: string)
    ensures Sections(Wrap(raw)).Some?
    ensures forall b :: b in Sections(Wrap(raw)).value ==> NoTerm(b)
    ensures Concat(Sections(Wrap(raw)).value) == raw
  {
    assert Open + "" + Escape(raw) + Close == Wrap(raw);
    assert "" + raw == raw;
    Reassemble("", raw);
  }

  /** The round trip for a section that starts with `lead`: empty for the
      first section, `>` for each section that a split `]]>` opens. */
  lemma {:induction false} Reassemble(lead: string, q: string)
    requires lead == "" || lead == ">"
    ensures var d := Sections(Open + lead + Escape(q) + Close);
            d.Some? && Concat(d.value) == lead + q
    decreases |q|
  {
    var r := FindTerm(q, 0);
    if r.None? {
      LastSection(lead, q);
    } else {
      var k := r.value;
      var q' := q[k + 3..];
      var b := SplitSection(lead, q, k);
      var t := Open + ">" + Escape(q') + Close;
      Reassemble(">", q');
      var rest := Sections(t).value;
      assert Concat([b] + rest) == b + Concat(rest);
    }
  }

  /** The last section: what is left of the content holds no `]]>`. */
  lemma LastSection(lead: string, q: string)
    requires lead == "" || lead == ">"
    requires FindTerm(q, 0).None?
    ensures Sections(Open + lead + Escape(q) + Close) == Some([lead + q])
  {
    EscapeIdentity(q);
    NoTermLead(lead, q);
    var s := Open + lead + Escape(q) + Close;
    Group(Open, lead, q, Close);
    SectionStep(s, lead + q, "");
    assert Sections("") == Some([]);
    assert [lead + q] + [] == [lead + q];
  }

  /** A regrouping stated on plain variables; kept as a lemma because the solver regroups this concatenation slowly at its call site. */
  lemma Group(o: string, l: string, q: string, c: string)
    ensures o + l + q + c == o + (l + q) + c + ""
  {
  }

  /** A section that ends at the first `]]>` of the content, split by the escape. */
  lemma SplitSection(lead: string, q: string, k: nat) returns (b: string)
    requires lead == "" || lead == ">"
    requires FindTerm(q, 0) == Some(k)
    ensures k + 3 <= |q|
    ensures b + ">" + q[k + 3..] == lead + q
    ensures var t := Open + ">" + Escape(q[k + 3..]) + Close;
            Sections(Open + lead + Escape(q) + Close) ==
            match Sections(t)
            case None => None
            case Some(rest) => Some([b] + rest)
  {
    var p, q' := q[..k], q[k + 3..];
    AtFirstTerm(q, k);
    EscapeSplit(p, q');
    b := lead + p + "]]";
    NoTermLead(lead, p);
    NoTermBrackets(lead + p);
    var t := Open + ">" + Escape(q') + Close;
    var s := Open + lead + Escape(q) + Close;
    assert Escape(q) == p + SplitClose + Escape(q');
    Regroup(Open, lead, p, SplitClose, Escape(q'), Close);
    SectionStep(s, b, t);
    Rejoin(lead, p, q', q);
  }

  /** The escaped `]]>` closes one section and opens the next: a regrouping stated on plain
      variables, kept as a lemma because the solver regroups it slowly at its call site. */
  lemma Regroup(o: string, l: string, p: string, x: string, e: string, c: string)
    requires x == "]]" + c + o + ">"
    ensures o + l + (p + x + e) + c == o + (l + p + "]]") + c + (o + ">" + e + c)
  {
  }

  /** The text before the first `]]>` holds none. */
  lemma AtFirstTerm(q: string, k: nat)
    requires FindTerm(q, 0) == Some(k)
    ensures k + 3 <= |q| && NoTerm(q[..k]) && q == q[..k] + Close + q[k + 3..]
  {
    var p := q[..k];
    forall j | 0 <= j < |p| ensures !TermAt(p, j) {
      assert !TermAt(q, j);
    }
    CloseAt(q, k);
  }

  /** A `]]>` at `k` splits the text around it. */
  lemma CloseAt(q: string, k: nat)
    requires TermAt(q, k)
    ensures q == q[..k] + Close + q[k + 3..]
  {
    assert q[k..k + 3] == Close;
    assert q == q[..k] + q[k..k + 3] + q[k + 3..];
  }

  /** A regrouping stated on plain variables; kept as a lemma because the solver regroups this concatenation slowly at its call site. */
  lemma Rejoin(l: string, p: string, r: string, q: string)
    requires q == p + Close + r
    ensures l + p + "]]" + ">" + r == l + q
  {
  }

  /** One section whose body has no `]]>`, followed by the text `t`. */
  lemma SectionStep(s: string, b: string, t: string)
    requires NoTerm(b) && s == Open + b + Close + t
    ensures Sections(s) ==
            match Sections(t)
            case None => None
            case Some(rest) => Some([b] + rest)
  {
    assert s[..|Open|] == Open;
    assert s[|Open|..] == b + Close + t;
    FirstTerm(b, t);
    assert (b + Close + t)[..|b|] == b;
    assert (b + Close + t)[|b| + 3..] == t;
  }

  /** Escaping text that is `]]>`-free up to its first `]]>`. */
  lemma {:induction false} EscapeSplit(p: string, q: string)
    requires NoTerm(p)
    ensures Escape(p + Close + q) == p + SplitClose + Escape(q)
    decreases |p|
  {
    if p == [] {
      EscapeAtClose(q);
    } else {
      EscapeStep(p, q);
      NoTermTail(p);
      EscapeSplit(p[1..], q);
      assert [p[0]] + p[1..] == p;
    }
  }

  lemma EscapeAtClose(q: string)
    ensures Escape(Close + q) == SplitClose + Escape(q)
  {
    var s := Close + q;
    assert TermAt(s, 0);
    assert s[3..] == q;
  }

  /** The first character of `]]>`-free text is copied as it is. */
  lemma EscapeStep(p: string, q: string)
    requires NoTerm(p) && p != []
    ensures Escape(p + Close + q) == [p[0]] + Escape(p[1..] + Close + q)
  {
    var s := p + Close + q;
    assert !TermAt(s, 0) by {
      if |p| >= 3 { assert !TermAt(p, 0); }
    }
    assert s[1..] == p[1..] + Close + q;
  }

  /** A `]]>`-free text followed by `]]>`: the first terminator is that one. */
  lemma FirstTerm(b: string, t: string)
    requires NoTerm(b)
    ensures FindTerm(b + Close + t, 0) == Some(|b|)
  {
    var s := b + Close + t;
    assert TermAt(s, |b|);
    forall j | 0 <= j < |b| ensures !TermAt(s, j) {
      if j + 3 <= |b| {
        assert !TermAt(b, j);
      }
    }
  }

  /** Putting `>` in front of `]]>`-free text adds no terminator. */
  lemma NoTermLead(lead: string, q: string)
    requires lead == "" || lead == ">"
    requires NoTerm(q)
    ensures NoTerm(lead + q)
  {
    if lead == "" {
      assert lead + q == q;
    } else {
      forall i | 0 <= i < |lead + q| ensures !TermAt(lead + q, i) {
        if TermAt(lead + q, i) {
          assert TermAt(q, i - 1);
        }
      }
    }
  }

  /** Appending `]]` to `]]>`-free text adds no terminator. */
  lemma NoTermBrackets(x: string)
    requires NoTerm(x)
    ensures NoTerm(x + "]]")
  {
    forall i ensures !TermAt(x + "]]", i) {
      if i + 3 <= |x| { assert !TermAt(x, i); }
    }
  }
}
