/** String helpers shared by both line framers: JavaScript's `indexOf`, concatenation of a
    list of strings, and the shape of a newline-terminated line. Strings are sequences of
    characters; the newline character is the only one the framers look at. */
module Strings {

  const NL: char := '\n'

  /** `s.indexOf(c)`: the index of the first occurrence of `c`, or -1 when there is none. */
  function IndexOf(s: string, c: char): (k: int)
    ensures -1 <= k < |s|
    ensures k == -1 <==> c !in s
    ensures k >= 0 ==> s[k] == c && c !in s[..k]
  {
    if |s| == 0 then -1
    else if s[0] == c then 0
    else
      var k := IndexOf(s[1..], c);
      assert s[1..][..if k < 0 then 0 else k] == s[1..1 + if k < 0 then 0 else k];
      if k == -1 then -1 else k + 1
  }

  /** Small facts about sequences, stated once so that the larger proofs can cite them instead
      of rediscovering them. */
  lemma SeqAssoc<T>(a: seq<T>, b: seq<T>, c: seq<T>)
    ensures (a + b) + c == a + (b + c)
  {
  }

  lemma SeqNil<T>(a: seq<T>)
    ensures a + [] == a
  {
  }

  lemma NilSeq<T>(a: seq<T>)
    ensures [] + a == a
  {
  }

  lemma ConsTail<T>(a: seq<T>)
    requires |a| > 0
    ensures a == [a[0]] + a[1..]
  {
  }

  lemma InitLast<T>(a: seq<T>)
    requires |a| > 0
    ensures a == a[..|a| - 1] + [a[|a| - 1]]
  {
  }

  lemma TakeSnoc<T>(s: seq<T>, n: nat)
    requires n < |s|
    ensures s[..n + 1] == s[..n] + [s[n]]
  {
  }

  /** The concatenation of a list of strings, in order. */
  function Concat(ls: seq<string>): string
  {
    if |ls| == 0 then "" else ls[0] + Concat(ls[1..])
  }

  lemma {:induction false} ConcatAppend(a: seq<string>, b: seq<string>)
    ensures Concat(a + b) == Concat(a) + Concat(b)
  {
    if |a| == 0 {
      assert a + b == b;
    } else {
      assert (a + b)[1..] == a[1..] + b;
      ConcatAppend(a[1..], b);
    }
  }

  lemma {:induction false} ConcatOne(l: string)
    ensures Concat([l]) == l
  {
    assert [l][1..] == [];
  }

  lemma {:induction false} ConcatCons(l: string, ls: seq<string>)
    ensures Concat([l] + ls) == l + Concat(ls)
  {
    assert ([l] + ls)[1..] == ls;
  }

  lemma {:induction false} ConcatSnoc(a: string, ls: seq<string>, l: string)
    ensures a + Concat(ls + [l]) == (a + Concat(ls)) + l
  {
    ConcatAppend(ls, [l]);
    ConcatOne(l);
    SeqAssoc(a, Concat(ls), l);
  }

  /** A complete line as the framer cuts it: non-empty, its last character a newline and no
      newline before it. */
  predicate IsLine(l: string)
  {
    |l| > 0 && l[|l| - 1] == NL && NL !in l[..|l| - 1]
  }

  predicate AllLines(ls: seq<string>)
  {
    forall k :: 0 <= k < |ls| ==> IsLine(ls[k])
  }

  /** A string has exactly one newline, as its last character, iff it is a line. */
  lemma {:induction false} LineByCount(l: string)
    ensures IsLine(l) <==> |l| > 0 && l[|l| - 1] == NL && multiset(l)[NL] == 1
  {
    if |l| > 0 {
      assert l == l[..|l| - 1] + [l[|l| - 1]];
      assert multiset(l) == multiset(l[..|l| - 1]) + multiset{l[|l| - 1]};
    }
  }
}
