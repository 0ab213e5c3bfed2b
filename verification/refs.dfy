/**
 * Entity references, logical flows, and the decimal text from which the graph
 * builds its link keys.
 */
module Refs {

  /** The identity of an entity: its kind ("APPLICATION", "ACTOR", ...) and its numeric id. */
  datatype EntityRef = EntityRef(kind: string, id: int)

  /** Fields of a flow or decorator record that the graph passes along without reading them. */
  type Details = string

  /** A logical flow from one entity to another. */
  datatype Flow = Flow(source: EntityRef, target: EntityRef, details: Details)

  /** The decimal digit for d. */
  function Digit(d: nat): (c: char)
    requires d < 10
    ensures '0' <= c <= '9'
    ensures c as int - '0' as int == d
  {
    (d + '0' as int) as char
  }

  /**
   * The decimal text of a non-negative integer. It agrees with JavaScript's
   * String() on safe integers (below 2^53). Larger ids are not exact as
   * JavaScript numbers, and from 1e21 up String() switches to exponent form.
   */
  function NatToString(n: nat): (s: string)
    ensures 1 <= |s|
    ensures n < 10 <==> |s| == 1
  {
    if n < 10 then [Digit(n)] else NatToString(n / 10) + [Digit(n % 10)]
  }

  /** The decimal text of a number is made of decimal digits only. */
  lemma {:induction false} NatToStringDigits(n: nat)
    ensures forall i :: 0 <= i < |NatToString(n)| ==> '0' <= NatToString(n)[i] <= '9'
  {
    if n >= 10 {
      NatToStringDigits(n / 10);
    }
  }

  /** The decimal text of an integer: a minus sign before the digits of a negative one. */
  function IntToString(i: int): string {
    if i < 0 then "-" + NatToString(-i) else NatToString(i)
  }

  /** The decimal text of an integer is never empty, holds no '_', and starts with '-' exactly when it is negative. */
  lemma IntToStringSpec(i: int)
    ensures '_' !in IntToString(i)
    ensures |IntToString(i)| >= 1 && (i < 0 <==> IntToString(i)[0] == '-')
  {
    NatToStringDigits(if i < 0 then -i else i);
  }

  /** The identity of a link: `${source.id}_${target.id}`. */
  function LinkKey(sourceId: int, targetId: int): string {
    IntToString(sourceId) + "_" + IntToString(targetId)
  }

  /** Different numbers have different decimal texts. */
  lemma {:induction false} NatToStringInjective(a: nat, b: nat)
    requires NatToString(a) == NatToString(b)
    ensures a == b
    decreases a
  {
    var sa, sb := NatToString(a), NatToString(b);
    if a < 10 {
      assert Digit(a) == sa[0] == sb[0] == Digit(b);
    } else {
      assert sa[|sa| - 1] == Digit(a % 10) && sb[|sb| - 1] == Digit(b % 10);
      assert NatToString(a / 10) == sa[..|sa| - 1];
      assert NatToString(b / 10) == sb[..|sb| - 1];
      NatToStringInjective(a / 10, b / 10);
    }
  }

  lemma IntToStringInjective(a: int, b: int)
    requires IntToString(a) == IntToString(b)
    ensures a == b
  {
    var s := IntToString(a);
    IntToStringSpec(a);
    IntToStringSpec(b);
    if a < 0 {
      assert NatToString(-a) == s[1..] == NatToString(-b);
      NatToStringInjective(-a, -b);
    } else {
      NatToStringInjective(a, b);
    }
  }

  /** Position of the first '_' in s (|s| when there is none). */
  function SeparatorIndex(s: string): (k: nat)
    ensures k <= |s|
  {
    if s == [] || s[0] == '_' then 0 else 1 + SeparatorIndex(s[1..])
  }

  lemma {:induction false} SeparatorAfter(p: string, q: string)
    requires '_' !in p
    ensures SeparatorIndex(p + "_" + q) == |p|
  {
    if p != [] {
      assert (p + "_" + q)[1..] == p[1..] + "_" + q;
      SeparatorAfter(p[1..], q);
    }
  }

  /** A text split at its first separator determines both halves. */
  lemma SplitAtSeparator(p: string, q: string, p': string, q': string)
    requires '_' !in p && '_' !in p'
    requires p + "_" + q == p' + "_" + q'
    ensures p == p' && q == q'
  {
    var s := p + "_" + q;
    SeparatorAfter(p, q);
    SeparatorAfter(p', q');
    assert p == s[..|p|] == p';
    assert q == s[|p| + 1..] == q';
  }

  /** Two links have the same key exactly when they join the same ordered pair of ids. */
  lemma LinkKeyInjective(a: int, b: int, c: int, d: int)
    ensures LinkKey(a, b) == LinkKey(c, d) <==> a == c && b == d
  {
    if LinkKey(a, b) == LinkKey(c, d) {
      IntToStringSpec(a);
      IntToStringSpec(c);
      SplitAtSeparator(IntToString(a), IntToString(b), IntToString(c), IntToString(d));
      IntToStringInjective(a, c);
      IntToStringInjective(b, d);
    }
  }
}
