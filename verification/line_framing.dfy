/** The read loop of the newline-framing hook: decoded chunks are appended to a buffer, every
    prefix of the buffer up to and including a newline is cut off, cleaned of escape sequences
    and appended to the output log, and when the loop is torn down the residue is flushed as
    one last cleaned entry.

    `Frame` is the reference definition of the cutting, with no buffer and no loop; the class
    `LineFramer` is the loop itself, proved against it. */
module LineFraming {
  import opened Strings
  import opened AnsiStrip

  /** The complete lines cut from a text, and the residue after its last newline. */
  datatype Framed = Framed(lines: seq<string>, rest: string)

  /** Cuts `s` after each newline. Like the inner loop, which stops once `indexOf` finds no
      newline, it leaves a residue without one, never longer than the text. */
  function Frame(s: string): (r: Framed)
    ensures NL !in r.rest && |r.rest| <= |s|
    decreases |s|
  {
    var k := IndexOf(s, NL);
    if k == -1 then Framed([], s)
    else
      var f := Frame(s[k + 1..]);
      Framed([s[..k + 1]] + f.lines, f.rest)
  }

  /** One cut of `Frame`, spelled out. */
  lemma {:induction false} FrameStep(s: string, k: int)
    requires k == IndexOf(s, NL) && k != -1
    ensures Frame(s) == Framed([s[..k + 1]] + Frame(s[k + 1..]).lines, Frame(s[k + 1..]).rest)
  {
  }

  /** The prefix up to the first newline is a line. */
  lemma {:induction false} FirstLine(s: string, k: int)
    requires k == IndexOf(s, NL) && k != -1
    ensures IsLine(s[..k + 1]) && s == s[..k + 1] + s[k + 1..]
  {
    assert s[..k + 1][..k] == s[..k];
  }

  /** The framing loses nothing, cuts only complete lines and leaves a residue without a
      newline. */
  lemma {:induction false} FrameIsFraming(s: string)
    ensures Concat(Frame(s).lines) + Frame(s).rest == s
    ensures AllLines(Frame(s).lines)
    ensures NL !in Frame(s).rest
    decreases |s|
  {
    var k := IndexOf(s, NL);
    if k != -1 {
      var l, t := s[..k + 1], s[k + 1..];
      FrameStep(s, k);
      FirstLine(s, k);
      FrameIsFraming(t);
      ConcatCons(l, Frame(t).lines);
      AllLinesCons(l, Frame(t).lines);
      ghost var c, r := Concat(Frame(t).lines), Frame(t).rest;
      assert Concat(Frame(s).lines) == l + c;
      SeqAssoc(l, c, r);
      assert Frame(s).rest == r;
    }
  }

  lemma {:induction false} AllLinesCons(l: string, ls: seq<string>)
    requires IsLine(l) && AllLines(ls)
    ensures AllLines([l] + ls)
  {
    forall k | 0 <= k < |[l] + ls|
      ensures IsLine(([l] + ls)[k])
    {
      if k > 0 {
        assert ([l] + ls)[k] == ls[k - 1];
      }
    }
  }

  lemma {:induction false} ConcatLines(ls: seq<string>)
    requires |ls| > 0
    ensures Concat(ls) == ls[0] + Concat(ls[1..])
  {
  }

  /** The first newline of a line followed by anything is the line's last character. */
  lemma {:induction false} FirstNewlineEndsLine(l: string, t: string)
    requires IsLine(l)
    ensures IndexOf(l + t, NL) == |l| - 1
    ensures (l + t)[..|l|] == l && (l + t)[|l|..] == t
  {
    var s := l + t;
    assert s[|l| - 1] == NL;
    var k := IndexOf(s, NL);
    assert forall m :: 0 <= m < |l| - 1 ==> s[m] == l[..|l| - 1][m];
    assert forall m :: 0 <= m < k ==> s[..k][m] == s[m];
  }

  /** Any way of writing `s` as complete lines followed by a newline-free residue is the one
      `Frame` finds. */
  lemma {:induction false} FrameUnique(s: string, ls: seq<string>, r: string)
    requires Concat(ls) + r == s && AllLines(ls) && NL !in r
    ensures Frame(s) == Framed(ls, r)
    decreases |ls|
  {
    if |ls| == 0 {
      NilSeq(r);
      FrameNoNewline(s);
    } else {
      var l, tail := ls[0], ls[1..];
      var t := Concat(tail) + r;
      ConcatLines(ls);
      SeqAssoc(l, Concat(tail), r);
      FirstNewlineEndsLine(l, t);
      FrameStep(s, |l| - 1);
      AllLinesTail(ls);
      FrameUnique(t, tail, r);
      ConsTail(ls);
    }
  }

  lemma {:induction false} AllLinesTail(ls: seq<string>)
    requires |ls| > 0 && AllLines(ls)
    ensures IsLine(ls[0]) && AllLines(ls[1..])
  {
    forall k | 0 <= k < |ls[1..]|
      ensures IsLine(ls[1..][k])
    {
      assert ls[1..][k] == ls[k + 1];
    }
  }

  lemma {:induction false} AllLinesAppend(a: seq<string>, b: seq<string>)
    requires AllLines(a) && AllLines(b)
    ensures AllLines(a + b)
  {
    forall k | 0 <= k < |a + b|
      ensures IsLine((a + b)[k])
    {
      if k < |a| {
        assert (a + b)[k] == a[k];
      } else {
        assert (a + b)[k] == b[k - |a|];
      }
    }
  }

  /** Chunking does not matter: framing `s` and then the residue followed by `t` cuts the same
      lines as framing `s + t` at once. */
  lemma {:induction false} FrameAppend(s: string, t: string)
    ensures Frame(s + t) ==
              Framed(Frame(s).lines + Frame(Frame(s).rest + t).lines, Frame(Frame(s).rest + t).rest)
  {
    var f := Frame(s);
    var g := Frame(f.rest + t);
    FrameIsFraming(s);
    FrameIsFraming(f.rest + t);
    ConcatAppend(f.lines, g.lines);
    SeqAssoc(Concat(f.lines), Concat(g.lines), g.rest);
    SeqAssoc(Concat(f.lines), f.rest, t);
    AllLinesAppend(f.lines, g.lines);
    FrameUnique(s + t, f.lines + g.lines, g.rest);
  }

  lemma {:induction false} FrameMore(s: string, ls: seq<string>, r: string, t: string)
    requires Frame(s) == Framed(ls, r)
    ensures Frame(s + t) == Framed(ls + Frame(r + t).lines, Frame(r + t).rest)
  {
    FrameAppend(s, t);
  }

  /** One pass of the cutting loop keeps its invariant: the line up to the first newline moves
      from the remaining text's lines to the cut ones, and is cleaned after the earlier ones. */
  lemma CutOne(start: string, cut: seq<string>, rest: string, k: int)
    requires k == IndexOf(rest, NL) && k != -1
    requires Frame(start) == Framed(cut + Frame(rest).lines, Frame(rest).rest)
    ensures Frame(start) ==
            Framed((cut + [rest[..k + 1]]) + Frame(rest[k + 1..]).lines,
                   Frame(rest[k + 1..]).rest)
    ensures StripAll(cut) + [StripAnsi(rest[..k + 1])] == StripAll(cut + [rest[..k + 1]])
  {
    var line := rest[..k + 1];
    FrameStep(rest, k);
    SeqAssoc(cut, [line], Frame(rest[k + 1..]).lines);
    StripAllAppend(cut, line);
  }

  lemma {:induction false} FrameResidue(start: string, cut: seq<string>, buffer: string)
    requires Frame(start) == Framed(cut + Frame(buffer).lines, Frame(buffer).rest)
    requires IndexOf(buffer, NL) == -1
    ensures Frame(start) == Framed(cut, buffer)
  {
    FrameNoNewline(buffer);
    SeqNil(cut);
  }

  lemma {:induction false} FrameMoreChunks(b: string, ls: seq<string>, l: string, cut: seq<string>, r: string)
    requires Frame(b + Concat(ls)) == Framed(cut, r)
    ensures Frame(b + Concat(ls + [l])) == Framed(cut + Frame(r + l).lines, Frame(r + l).rest)
  {
    ConcatSnoc(b, ls, l);
    FrameMore(b + Concat(ls), cut, r, l);
  }

  /** Text without a newline is all residue. */
  lemma {:induction false} FrameNoNewline(s: string)
    requires NL !in s
    ensures Frame(s) == Framed([], s)
  {
  }

  /** `stripAnsi` applied to each entry, in order. */
  function StripAll(ls: seq<string>): (r: seq<string>)
    ensures |r| == |ls|
    ensures forall k :: 0 <= k < |ls| ==> r[k] == StripAnsi(ls[k])
    decreases |ls|
  {
    if |ls| == 0 then [] else StripAll(ls[..|ls| - 1]) + [StripAnsi(ls[|ls| - 1])]
  }

  lemma {:induction false} StripAllAppend(ls: seq<string>, l: string)
    ensures StripAll(ls + [l]) == StripAll(ls) + [StripAnsi(l)]
  {
    assert (ls + [l])[..|ls|] == ls;
  }

  lemma {:induction false} StripAllConcat(a: seq<string>, b: seq<string>)
    ensures StripAll(a + b) == StripAll(a) + StripAll(b)
    decreases |b|
  {
    if |b| > 0 {
      var init, last := b[..|b| - 1], b[|b| - 1];
      InitLast(b);
      SeqAssoc(a, init, [last]);
      StripAllAppend(a + init, last);
      StripAllConcat(a, init);
      StripAllAppend(init, last);
      SeqAssoc(StripAll(a), StripAll(init), [StripAnsi(last)]);
    } else {
      SeqNil(a);
      SeqNil(StripAll(a));
    }
  }

  /** Cleaning keeps every entry a line: each cleaned entry still ends in its newline. */
  lemma {:induction false} StripAllLines(ls: seq<string>)
    requires AllLines(ls)
    ensures AllLines(StripAll(ls))
    decreases |ls|
  {
    if |ls| > 0 {
      var init := ls[..|ls| - 1];
      assert AllLines(init) by {
        forall k | 0 <= k < |init|
          ensures IsLine(init[k])
        {
          assert init[k] == ls[k];
        }
      }
      StripAllLines(init);
      StripLine(ls[|ls| - 1]);
      forall k | 0 <= k < |StripAll(ls)|
        ensures IsLine(StripAll(ls)[k])
      {
        if k < |init| {
          assert StripAll(ls)[k] == StripAll(init)[k];
        }
      }
    }
  }

  /** Cleaning never lengthens an entry. */
  lemma {:induction false} StripAllShorter(ls: seq<string>, k: nat)
    requires k < |ls|
    ensures |StripAll(ls)[k]| <= |ls[k]|
    decreases |ls|
  {
    if k < |ls| - 1 {
      StripAllShorter(ls[..|ls| - 1], k);
    }
  }

  /** The inner loop of the read loop: while `indexOf('\n')` finds a newline, the text up to
      and including it is cut off as a line and cleaned with `stripAnsi`. The lines are those of
      `Frame`, the cleaned ones are their `StripAll`, and the rest is `Frame`'s residue. */
  method CutLines(text: string) returns (lines: seq<string>, cleaned: seq<string>, rest: string)
    ensures lines == Frame(text).lines && rest == Frame(text).rest
    ensures cleaned == StripAll(lines)
  {
    rest := text;
    lines := [];
    cleaned := [];
    NilSeq(Frame(text).lines);
    var newlineIndex := IndexOf(rest, NL);
    while newlineIndex != -1
      invariant newlineIndex == IndexOf(rest, NL)
      invariant Frame(text) == Framed(lines + Frame(rest).lines, Frame(rest).rest)
      invariant cleaned == StripAll(lines)
      decreases |rest|
    {
      var line := rest[..newlineIndex + 1];
      CutOne(text, lines, rest, newlineIndex);
      rest := rest[newlineIndex + 1..];
      cleaned := cleaned + [StripAnsi(line)];
      lines := lines + [line];
      newlineIndex := IndexOf(rest, NL);
    }
    FrameResidue(text, lines, rest);
  }

  /** The read loop's state. `buffer` and `output` are the hook's; `fed` (all text received
      since the loop started) and `raw` (the lines cut so far, before cleaning) exist for the
      proof only. */
  class LineFramer {
    var buffer: string
    var output: seq<string>
    ghost var fed: string
    ghost var raw: seq<string>

    /** The buffer and the cut lines are exactly the framing of what was received. */
    ghost predicate Valid()
      reads this
    {
      Frame(fed) == Framed(raw, buffer)
    }

    /** A loop that has received nothing, with an empty log. */
    constructor ()
      ensures Valid()
      ensures buffer == "" && output == [] && fed == "" && raw == []
    {
      buffer := "";
      output := [];
      fed := "";
      raw := [];
    }

    /** One decoded chunk: appended to the buffer, then every complete line is cut off,
        cleaned and logged, in order. */
    method Feed(chunk: string)
      requires Valid()
      modifies this
      ensures Valid()
      ensures fed == old(fed) + chunk
      ensures raw == old(raw) + Frame(old(buffer) + chunk).lines
      ensures buffer == Frame(old(buffer) + chunk).rest
      ensures output == old(output) + StripAll(Frame(old(buffer) + chunk).lines)
    {
      FrameMore(fed, raw, buffer, chunk);
      var lines, cleaned, rest := CutLines(buffer + chunk);
      buffer := rest;
      fed := fed + chunk;
      raw := raw + lines;
      output := output + cleaned;
    }

    /** The loop over a stream of chunks until the reader reports it is done: the lines logged
        are those of the whole stream, however it was split into chunks. */
    method Run(chunks: seq<string>)
      requires Valid()
      modifies this
      ensures Valid()
      ensures fed == old(fed) + Concat(chunks)
      ensures raw == old(raw) + Frame(old(buffer) + Concat(chunks)).lines
      ensures buffer == Frame(old(buffer) + Concat(chunks)).rest
      ensures output == old(output) + StripAll(Frame(old(buffer) + Concat(chunks)).lines)
    {
      ghost var cutAll: seq<string> := [];
      SeqNil(old(raw));
      SeqNil(old(output));
      SeqNil(old(buffer));
      FrameIsFraming(fed);
      FrameNoNewline(buffer);
      assert chunks[..0] == [];
      var n := 0;
      while n < |chunks|
        invariant n <= |chunks|
        invariant Valid()
        invariant fed == old(fed) + Concat(chunks[..n])
        invariant Frame(old(buffer) + Concat(chunks[..n])) == Framed(cutAll, buffer)
        invariant raw == old(raw) + cutAll
        invariant output == old(output) + StripAll(cutAll)
      {
        ghost var framed := Frame(buffer + chunks[n]);
        FrameMoreChunks(old(buffer), chunks[..n], chunks[n], cutAll, buffer);
        Feed(chunks[n]);
        StripAllConcat(cutAll, framed.lines);
        SeqAssoc(old(raw), cutAll, framed.lines);
        SeqAssoc(old(output), StripAll(cutAll), StripAll(framed.lines));
        ConcatSnoc(old(fed), chunks[..n], chunks[n]);
        TakeSnoc(chunks, n);
        cutAll := cutAll + framed.lines;
        n := n + 1;
      }
      assert chunks[..n] == chunks;
    }

    /** The effect's teardown: a non-empty residue becomes one last cleaned entry, and the next
        loop starts from an empty buffer. */
    method Flush()
      modifies this
      ensures old(buffer) != "" ==> output == old(output) + [StripAnsi(old(buffer))]
      ensures old(buffer) == "" ==> output == old(output)
      ensures buffer == "" && fed == "" && raw == []
      ensures Valid()
    {
      if |buffer| > 0 {
        output := output + [StripAnsi(buffer)];
      }
      buffer := "";
      fed := "";
      raw := [];
    }

    /** `clearOutput`: the log is emptied and nothing else changes. */
    method ClearOutput()
      modifies this
      ensures output == []
      ensures buffer == old(buffer) && fed == old(fed) && raw == old(raw)
    {
      output := [];
    }
  }
}
