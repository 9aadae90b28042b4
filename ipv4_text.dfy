/** The dotted-quad text of an IPv4 address: four decimal numbers joined by dots. */
module Ipv4Text {
  import opened JsText

  /** The dotted-quad text of four numbers. */
  function DottedQuad(a: nat, b: nat, c: nat, d: nat): string {
    Join([NatToString(a), NatToString(b), NatToString(c), NatToString(d)], '.')
  }

  lemma DottedQuadParts(a: nat, b: nat, c: nat, d: nat)
    ensures Split(DottedQuad(a, b, c, d), '.') == [NatToString(a), NatToString(b), NatToString(c), NatToString(d)]
  {
    var ps := [NatToString(a), NatToString(b), NatToString(c), NatToString(d)];
    forall i | 0 <= i < |ps| ensures Free(ps[i], '.') {
      NatToStringFree(if i == 0 then a else if i == 1 then b else if i == 2 then c else d, '.');
    }
    SplitJoin(ps, '.');
  }

  /** Different dotted quads are different texts. */
  lemma DottedQuadInjective(a: nat, b: nat, c: nat, d: nat, a': nat, b': nat, c': nat, d': nat)
    requires DottedQuad(a, b, c, d) == DottedQuad(a', b', c', d')
    ensures a == a' && b == b' && c == c' && d == d'
  {
    DottedQuadParts(a, b, c, d);
    DottedQuadParts(a', b', c', d');
    var ps := [NatToString(a), NatToString(b), NatToString(c), NatToString(d)];
    var qs := [NatToString(a'), NatToString(b'), NatToString(c'), NatToString(d')];
    assert ps[0] == qs[0] && ps[1] == qs[1] && ps[2] == qs[2] && ps[3] == qs[3];
    NatToStringInjective(a, a');
    NatToStringInjective(b, b');
    NatToStringInjective(c, c');
    NatToStringInjective(d, d');
  }

  /** Four pieces joined with a separator. */
  lemma JoinFour(p0: string, p1: string, p2: string, p3: string, sep: char)
    ensures Join([p0, p1, p2, p3], sep) == p0 + [sep] + p1 + [sep] + p2 + [sep] + p3
  {
    assert Join([p2, p3], sep) == p2 + [sep] + p3 by {
      assert [p2, p3][1..] == [p3];
    }
    assert Join([p1, p2, p3], sep) == p1 + [sep] + p2 + [sep] + p3 by {
      assert [p1, p2, p3][1..] == [p2, p3];
    }
    assert [p0, p1, p2, p3][1..] == [p1, p2, p3];
  }
}
