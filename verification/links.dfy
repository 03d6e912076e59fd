/**
 * Inline links in pin text: `[anchor](href)` becomes a link and everything
 * else stays plain text.  The scanner is the regular expression
 * `\[([^\]]+)\]\(([^)]+)\)` run globally from left to right: an anchor text runs
 * from `[` to the first `]` and is not empty, `(` must follow at once, and
 * the href runs to the first `)` and is not empty.  When no link starts at a
 * position, scanning moves on by one character.
 */
module Links {

  import opened Basics

  datatype Segment = Plain(text: string) | Link(anchor: string, href: string)

  /** What the parser hands to the renderer: the input itself, or its parts. */
  datatype Rendered = AsIs(text: string) | Parts(parts: seq<Segment>)

  /** The source text a segment was cut from. */
  function SegmentText(s: Segment): string {
    match s
    case Plain(t) => t
    case Link(l, u) => "[" + l + "](" + u + ")"
  }

  /** The segments re-rendered as source text, in order. */
  function Render(segs: seq<Segment>): string
    decreases |segs|
  {
    if segs == [] then "" else SegmentText(segs[0]) + Render(segs[1..])
  }

  /** The first index at or after `from` holding `c`, or |s| when there is none. */
  function IndexOf(s: string, c: char, from: nat): (r: nat)
    requires from <= |s|
    ensures from <= r <= |s|
    ensures r < |s| ==> s[r] == c
    ensures forall i :: from <= i < r ==> s[i] != c
    decreases |s| - from
  {
    if from == |s| || s[from] == c then from else IndexOf(s, c, from + 1)
  }

  /** The pieces of a link the pattern accepts. */
  predicate LinkOk(anchor: string, href: string) {
    anchor != "" && href != "" && ']' !in anchor && ')' !in href
  }

  /** `c` does not occur in `s[lo..hi]` when no position in that range holds it. */
  lemma NotInSlice(s: string, c: char, lo: nat, hi: nat)
    requires lo <= hi <= |s|
    requires forall i :: lo <= i < hi ==> s[i] != c
    ensures c !in s[lo..hi]
  {
    forall x | x in s[lo..hi] ensures x != c {
      var i :| 0 <= i < hi - lo && s[lo..hi][i] == x;
      assert s[lo + i] == x;
    }
  }

  /** A match of the link pattern anchored at the start of `t`, if any. */
  function LinkPrefix(t: string): (r: Option<Segment>)
    ensures r.Some? ==> r.value.Link? && LinkOk(r.value.anchor, r.value.href)
    ensures r.Some? ==> |SegmentText(r.value)| <= |t| && t[..|SegmentText(r.value)|] == SegmentText(r.value)
  {
    if |t| == 0 || t[0] != '[' then None
    else
      var j := IndexOf(t, ']', 1);
      if j == 1 || j + 1 >= |t| || t[j + 1] != '(' then None
      else
        var k := IndexOf(t, ')', j + 2);
        if k == j + 2 || k == |t| then None
        else
          NotInSlice(t, ']', 1, j);
          NotInSlice(t, ')', j + 2, k);
          assert t[..k + 1] == "[" + t[1..j] + "](" + t[j + 2..k] + ")";
          Some(Link(t[1..j], t[j + 2..k]))
  }

  /** No link starts at any of the first `n` positions of `t`. */
  ghost predicate LinkFree(t: string, n: nat) {
    forall d :: 0 <= d < n && d <= |t| ==> LinkPrefix(t[d..]).None?
  }

  /**
   * The leftmost match in `t`: its offset and the link.  This is what one
   * call of the global regular expression's `exec` finds.
   */
  function NextLink(t: string): (r: Option<(nat, Segment)>)
    ensures r.None? ==> LinkFree(t, |t| + 1)
    ensures r.Some? ==> r.value.0 < |t| && LinkPrefix(t[r.value.0..]) == Some(r.value.1)
    ensures r.Some? ==> LinkFree(t, r.value.0)
    decreases |t|
  {
    assert t[0..] == t;
    if LinkPrefix(t).Some? then Some((0, LinkPrefix(t).value))
    else if t == [] then None
    else
      var rest := NextLink(t[1..]);
      if rest.None? then
        LinkFreeShift(t, |t|);
        None
      else
        var d := rest.value.0;
        LinkFreeShift(t, d);
        assert t[1..][d..] == t[d + 1..];
        Some((d + 1, rest.value.1))
  }

  /** No link at the start, and none in the first `n` positions after it. */
  lemma LinkFreeShift(t: string, n: nat)
    requires t != [] && LinkPrefix(t).None? && LinkFree(t[1..], n)
    ensures LinkFree(t, n + 1)
  {
    forall d | 0 <= d < n + 1 && d <= |t| ensures LinkPrefix(t[d..]).None? {
      if d == 0 {
        assert t[0..] == t;
      } else {
        assert t[d..] == t[1..][d - 1..];
      }
    }
  }

  /** The plain run in front of a match at offset `d`, if the match is not at the start. */
  function Lead(t: string, d: nat): (r: seq<Segment>)
    requires d <= |t|
    ensures Render(r) == t[..d]
  {
    if d > 0 then
      assert Render([Plain(t[..d])]) == t[..d] + Render([]);
      [Plain(t[..d])]
    else []
  }

  /**
   * The scanning loop: plain text before each leftmost match, the match as
   * a link, then scanning resumes right after it; any tail is plain text.
   */
  function Segments(t: string): seq<Segment>
    decreases |t|
  {
    match NextLink(t)
    case None => if t == "" then [] else [Plain(t)]
    case Some((d, m)) => Lead(t, d) + ([m] + Segments(t[d + |SegmentText(m)|..]))
  }

  /** The first segment of a decomposition is one the scanner could emit there. */
  ghost predicate HeadOk(segs: seq<Segment>)
    requires segs != []
  {
    match segs[0]
    case Link(l, u) => LinkOk(l, u)
    case Plain(p) =>
      && p != ""
      && (|segs| > 1 ==> segs[1].Link?)
      && LinkFree(Render(segs), |p|)
  }

  /**
   * A decomposition the scanner could have produced: links are well formed,
   * plain runs are non-empty, never followed by another plain run, and no
   * link starts anywhere inside them (matches are leftmost).
   */
  ghost predicate Canonical(segs: seq<Segment>)
    decreases |segs|
  {
    segs == [] || (HeadOk(segs) && Canonical(segs[1..]))
  }

  /** parseLinks: falsy (empty) text comes back as is, other text as parts. */
  function ParseLinks(text: string): (r: Rendered)
    ensures r.AsIs? <==> text == ""
    ensures r.AsIs? ==> r.text == text
    ensures r.Parts? ==> Render(r.parts) == text && Canonical(r.parts)
  {
    if text == "" then AsIs(text)
    else
      SegmentsRender(text);
      SegmentsCanonical(text);
      var parts := Segments(text);
      if |parts| > 0 then Parts(parts) else AsIs(text)
  }

  lemma RenderCons(s: Segment, rest: seq<Segment>)
    ensures Render([s] + rest) == SegmentText(s) + Render(rest)
  {
    assert ([s] + rest)[1..] == rest;
  }

  lemma {:induction false} RenderAppend(a: seq<Segment>, b: seq<Segment>)
    ensures Render(a + b) == Render(a) + Render(b)
    decreases |a|
  {
    if a == [] {
      assert a + b == b;
    } else {
      assert (a + b)[1..] == a[1..] + b;
      RenderAppend(a[1..], b);
    }
  }

  /** A text splits around its leftmost match. */
  lemma SplitAtMatch(t: string, d: nat, m: Segment)
    requires d < |t| && LinkPrefix(t[d..]) == Some(m)
    ensures d + |SegmentText(m)| <= |t|
    ensures t == t[..d] + SegmentText(m) + t[d + |SegmentText(m)|..]
  {
    var w := SegmentText(m);
    assert |w| <= |t[d..]| && t[d..][..|w|] == w;
    SplitAround(t, d, w);
  }

  /** A string splits around an occurrence of `w` at `d`. */
  lemma SplitAround(t: string, d: nat, w: string)
    requires d + |w| <= |t| && t[d..][..|w|] == w
    ensures t == t[..d] + w + t[d + |w|..]
  {
    assert t[d..d + |w|] == w;
    assert t == t[..d] + t[d..d + |w|] + t[d + |w|..];
  }

  /** One round of the scanning loop, when a match is found. */
  lemma SegmentsStep(t: string)
    requires NextLink(t).Some?
    ensures var d, m := NextLink(t).value.0, NextLink(t).value.1;
      && d + |SegmentText(m)| <= |t|
      && t == t[..d] + SegmentText(m) + t[d + |SegmentText(m)|..]
      && Segments(t) == Lead(t, d) + ([m] + Segments(t[d + |SegmentText(m)|..]))
  {
    SplitAtMatch(t, NextLink(t).value.0, NextLink(t).value.1);
  }

  /** Rendering the output of one scanning round around a match. */
  lemma RenderAround(t: string, d: nat, m: Segment, rest: seq<Segment>, tail: string)
    requires d <= |t|
    requires Render(rest) == tail
    requires t == t[..d] + SegmentText(m) + tail
    ensures Render(Lead(t, d) + ([m] + rest)) == t
  {
    RenderCons(m, rest);
    RenderAppend(Lead(t, d), [m] + rest);
  }

  /** Concatenating the parts, each link written back as `[anchor](href)`, gives the input. */
  lemma {:induction false} SegmentsRender(t: string)
    ensures Render(Segments(t)) == t
    decreases |t|
  {
    var r := NextLink(t);
    if r.None? {
      if t != "" {
        assert Segments(t) == [Plain(t)];
        RenderCons(Plain(t), []);
      } else {
        assert Segments(t) == [];
      }
    } else {
      var d, m := r.value.0, r.value.1;
      SegmentsStep(t);
      var tail := t[d + |SegmentText(m)|..];
      SegmentsRender(tail);
      RenderAround(t, d, m, Segments(tail), tail);
    }
  }

  /** A link followed by a canonical decomposition is canonical. */
  lemma LinkThenCanonical(m: Segment, rest: seq<Segment>)
    requires m.Link? && LinkOk(m.anchor, m.href) && Canonical(rest)
    ensures Canonical([m] + rest)
  {
    assert ([m] + rest)[1..] == rest;
  }

  /** The scanner's output satisfies every condition of Canonical. */
  lemma {:induction false} SegmentsCanonical(t: string)
    ensures Canonical(Segments(t))
    decreases |t|
  {
    var r := NextLink(t);
    if r.None? {
      if t != "" {
        var segs := [Plain(t)];
        RenderCons(Plain(t), []);
        assert Render(segs) == t;
        assert segs[1..] == [];
        assert HeadOk(segs);
      }
    } else {
      var d, m := r.value.0, r.value.1;
      SegmentsStep(t);
      var tail := t[d + |SegmentText(m)|..];
      var linked := [m] + Segments(tail);
      SegmentsCanonical(tail);
      LinkThenCanonical(m, Segments(tail));
      if d > 0 {
        var segs := [Plain(t[..d])] + linked;
        assert Segments(t) == segs;
        assert segs[1..] == linked;
        SegmentsRender(t);
        assert HeadOk(segs);
      } else {
        assert Segments(t) == linked;
      }
    }
  }

  /** A well-formed link written out is recognised at the start of any text. */
  lemma LinkPrefixOfLink(l: string, u: string, rest: string)
    requires LinkOk(l, u)
    ensures LinkPrefix(SegmentText(Link(l, u)) + rest) == Some(Link(l, u))
  {
    var t := SegmentText(Link(l, u)) + rest;
    assert t == "[" + l + "](" + u + ")" + rest;
    var j := IndexOf(t, ']', 1);
    forall i | 1 <= i < 1 + |l| ensures t[i] != ']' {
      assert t[i] == l[i - 1];
    }
    assert t[1 + |l|] == ']';
    assert j == 1 + |l|;
    assert t[j + 1] == '(';
    var k := IndexOf(t, ')', j + 2);
    forall i | j + 2 <= i < j + 2 + |u| ensures t[i] != ')' {
      assert t[i] == u[i - j - 2];
    }
    assert t[j + 2 + |u|] == ')';
    assert k == j + 2 + |u|;
    assert t[1..j] == l;
    assert t[j + 2..k] == u;
  }

  /** A match at `d` with none before it is the leftmost match. */
  lemma {:induction false} NextLinkAt(t: string, d: nat, m: Segment)
    requires d <= |t|
    requires LinkPrefix(t[d..]) == Some(m)
    requires LinkFree(t, d)
    ensures NextLink(t) == Some((d, m))
    decreases d
  {
    assert t[0..] == t;
    if d > 0 {
      assert LinkPrefix(t).None?;
      var u := t[1..];
      assert u[d - 1..] == t[d..];
      forall e | 0 <= e < d - 1 ensures LinkPrefix(u[e..]).None? {
        assert u[e..] == t[e + 1..];
      }
      NextLinkAt(u, d - 1, m);
    }
  }

  /** The scanner on a text that begins with a well-formed link followed by `rest`. */
  lemma SegmentsOfLink(m: Segment, rest: string)
    requires m.Link? && LinkOk(m.anchor, m.href)
    ensures Segments(SegmentText(m) + rest) == [m] + Segments(rest)
  {
    var t := SegmentText(m) + rest;
    LinkPrefixOfLink(m.anchor, m.href, rest);
    assert t[0..] == t;
    NextLinkAt(t, 0, m);
    assert t[|SegmentText(m)|..] == rest;
  }

  /** The scanner on a link-free plain run followed by a well-formed link and `rest`. */
  lemma SegmentsOfPlainLink(p: string, m: Segment, rest: string)
    requires p != "" && m.Link? && LinkOk(m.anchor, m.href)
    requires LinkFree(p + SegmentText(m) + rest, |p|)
    ensures Segments(p + SegmentText(m) + rest) == [Plain(p)] + ([m] + Segments(rest))
  {
    var t := p + SegmentText(m) + rest;
    LinkPrefixOfLink(m.anchor, m.href, rest);
    assert t[|p|..] == SegmentText(m) + rest;
    NextLinkAt(t, |p|, m);
    assert t[..|p|] == p;
    assert t[|p| + |SegmentText(m)|..] == rest;
  }

  /**
   * Uniqueness: every canonical decomposition of a text is exactly what the
   * scanner produces for it, so Canonical fully characterises parseLinks.
   */
  lemma {:induction false} CanonicalUnique(segs: seq<Segment>)
    requires Canonical(segs)
    ensures Segments(Render(segs)) == segs
    decreases |segs|
  {
    if segs == [] {
      assert NextLink("") == None by { assert LinkPrefix("").None?; }
    } else if segs[0].Link? {
      CanonicalUnique(segs[1..]);
      UniqueLinkStep(segs);
    } else if |segs| == 1 {
      UniqueLoneStep(segs);
    } else {
      assert segs[1..][1..] == segs[2..];
      CanonicalUnique(segs[2..]);
      UniquePlainLinkStep(segs);
    }
  }

  /** A canonical list headed by a link: the scanner takes the link, then the rest. */
  lemma UniqueLinkStep(segs: seq<Segment>)
    requires segs != [] && Canonical(segs) && segs[0].Link?
    requires Segments(Render(segs[1..])) == segs[1..]
    ensures Segments(Render(segs)) == segs
  {
    var m, rest := segs[0], segs[1..];
    assert LinkOk(m.anchor, m.href) by { assert HeadOk(segs); }
    RenderCons(m, rest);
    assert [m] + rest == segs;
    SegmentsOfLink(m, Render(rest));
  }

  /** A canonical list of one plain part: the scanner finds no match. */
  lemma UniqueLoneStep(segs: seq<Segment>)
    requires |segs| == 1 && Canonical(segs) && segs[0].Plain?
    ensures Segments(Render(segs)) == segs
  {
    assert HeadOk(segs);
    var p := segs[0].text;
    RenderCons(segs[0], []);
    assert Render(segs) == p;
    assert LinkFree(p, |p| + 1) by {
      assert p[|p|..] == "";
      assert LinkPrefix("").None?;
    }
    assert NextLink(p) == None;
  }

  /** A canonical list headed by a plain part: the scanner takes it and the link after it. */
  lemma UniquePlainLinkStep(segs: seq<Segment>)
    requires |segs| > 1 && Canonical(segs) && segs[0].Plain?
    requires Segments(Render(segs[2..])) == segs[2..]
    ensures Segments(Render(segs)) == segs
  {
    assert HeadOk(segs);
    var p, m, rest2 := segs[0].text, segs[1], segs[2..];
    assert HeadOk(segs[1..]);
    assert segs == [segs[0]] + ([m] + rest2);
    RenderCons(segs[0], [m] + rest2);
    RenderCons(m, rest2);
    assert Render(segs) == p + SegmentText(m) + Render(rest2);
    SegmentsOfPlainLink(p, m, Render(rest2));
  }

  /** Text with no match anywhere comes back as a single plain part. */
  lemma NoLinkUnchanged(t: string)
    requires t != ""
    requires LinkFree(t, |t|)
    ensures ParseLinks(t) == Parts([Plain(t)])
  {
    var segs := [Plain(t)];
    RenderCons(Plain(t), []);
    assert Render(segs) == t;
    assert segs[1..] == [];
    assert HeadOk(segs);
    CanonicalUnique(segs);
  }

  /** The shape of the parts, stated element by element. */
  lemma {:induction false} CanonicalShape(segs: seq<Segment>)
    requires Canonical(segs)
    ensures forall i :: 0 <= i < |segs| && segs[i].Link? ==> LinkOk(segs[i].anchor, segs[i].href)
    ensures forall i :: 0 <= i < |segs| && segs[i].Plain? ==> segs[i].text != ""
    ensures forall i :: 0 <= i < |segs| - 1 && segs[i].Plain? ==> segs[i + 1].Link?
    decreases |segs|
  {
    if segs != [] {
      assert HeadOk(segs);
      CanonicalShape(segs[1..]);
      assert forall i :: 1 <= i < |segs| ==> segs[i] == segs[1..][i - 1];
    }
  }
}
