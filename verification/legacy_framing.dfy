/** The read loop of the earlier hook: every non-empty chunk is appended to a buffer, and as
    soon as the buffer holds a newline the whole buffer, whatever follows that newline, becomes
    one log entry and the buffer is emptied. Nothing is cleaned and nothing is flushed when the
    loop is torn down.

    `Replay` is the reference definition over a whole stream of chunks; the class
    `WholeBufferFramer` is the loop, proved against it. The lemmas at the end compare the
    entries with the lines `LineFraming.Frame` cuts from the same stream. */
module LegacyFraming {
  import opened Strings
  import opened LineFraming

  /** The entries logged so far and the text still buffered. */
  datatype Emitted = Emitted(entries: seq<string>, rest: string)

  /** What the loop does with one chunk, given the entries and buffer before it. */
  function Accept(e: Emitted, chunk: string): (r: Emitted)
    ensures chunk == "" ==> r == e
    ensures |e.entries| <= |r.entries| <= |e.entries| + 1 && r.entries[..|e.entries|] == e.entries
    ensures chunk != "" ==> NL !in r.rest
  {
    if chunk == "" then e
    else if NL in e.rest + chunk then Emitted(e.entries + [e.rest + chunk], "")
    else Emitted(e.entries, e.rest + chunk)
  }

  /** The entries and buffer after a stream of chunks, starting from buffer `b` and no entries. */
  function Replay(b: string, chunks: seq<string>): (r: Emitted)
    ensures |r.entries| <= |chunks|
    ensures NL !in b ==> NL !in r.rest
    decreases |chunks|
  {
    if |chunks| == 0 then Emitted([], b)
    else Accept(Replay(b, chunks[..|chunks| - 1]), chunks[|chunks| - 1])
  }

  /** An entry as the loop logs it: a newline somewhere in it. */
  predicate HasNewline(e: string)
  {
    NL in e
  }

  predicate AllHaveNewline(es: seq<string>)
  {
    forall k :: 0 <= k < |es| ==> HasNewline(es[k])
  }

  /** One chunk keeps the loop's invariant: nothing lost, every entry holds a newline and the
      buffer holds none. */
  lemma {:induction false} AcceptKeeps(e: Emitted, chunk: string)
    requires AllHaveNewline(e.entries) && NL !in e.rest
    ensures Concat(Accept(e, chunk).entries) + Accept(e, chunk).rest
            == Concat(e.entries) + e.rest + chunk
    ensures AllHaveNewline(Accept(e, chunk).entries)
    ensures NL !in Accept(e, chunk).rest
    ensures |Accept(e, chunk).entries| >= |e.entries|
    ensures Accept(e, chunk).entries[..|e.entries|] == e.entries
  {
    var c := Concat(e.entries);
    if chunk == "" {
      SeqNil(c + e.rest);
      assert e.entries[..|e.entries|] == e.entries;
    } else if NL in e.rest + chunk {
      var l := e.rest + chunk;
      ConcatAppend(e.entries, [l]);
      ConcatOne(l);
      SeqNil(c + l);
      SeqAssoc(c, e.rest, chunk);
      assert (e.entries + [l])[..|e.entries|] == e.entries;
      forall k | 0 <= k < |e.entries + [l]|
        ensures HasNewline((e.entries + [l])[k])
      {
        if k < |e.entries| {
          assert (e.entries + [l])[k] == e.entries[k];
        }
      }
    } else {
      SeqAssoc(c, e.rest, chunk);
      assert e.entries[..|e.entries|] == e.entries;
    }
  }

  /** Over a whole stream: the entries followed by the buffer are exactly the buffer the loop
      started with followed by every chunk; every entry holds a newline; the buffer holds
      none. */
  lemma {:induction false} ReplayConserves(b: string, chunks: seq<string>)
    requires NL !in b
    ensures Concat(Replay(b, chunks).entries) + Replay(b, chunks).rest == b + Concat(chunks)
    ensures AllHaveNewline(Replay(b, chunks).entries)
    ensures NL !in Replay(b, chunks).rest
    decreases |chunks|
  {
    if |chunks| == 0 {
      SeqNil(b);
    } else {
      var init, last := chunks[..|chunks| - 1], chunks[|chunks| - 1];
      ReplayConserves(b, init);
      AcceptKeeps(Replay(b, init), last);
      ConcatSnoc(b, init, last);
      assert chunks == init + [last];
    }
  }

  /** Entries already logged stay where they are: a longer stream only appends. */
  lemma {:induction false} ReplayAppendOnly(b: string, chunks: seq<string>, n: nat)
    requires NL !in b && n <= |chunks|
    ensures |Replay(b, chunks[..n]).entries| <= |Replay(b, chunks).entries|
    ensures Replay(b, chunks).entries[..|Replay(b, chunks[..n]).entries|]
            == Replay(b, chunks[..n]).entries
    decreases |chunks|
  {
    if n == |chunks| {
      assert chunks[..n] == chunks;
    } else {
      var init := chunks[..|chunks| - 1];
      assert init[..n] == chunks[..n];
      ReplayAppendOnly(b, init, n);
      ReplayConserves(b, init);
      AcceptKeeps(Replay(b, init), chunks[|chunks| - 1]);
      var p, q, r := Replay(b, chunks[..n]).entries, Replay(b, init).entries, Replay(b, chunks).entries;
      assert r[..|p|] == r[..|q|][..|p|];
    }
  }

  /** An empty chunk, the only falsy string, changes nothing. */
  lemma {:induction false} EmptyChunkIgnored(b: string, chunks: seq<string>)
    ensures Replay(b, chunks + [""]) == Replay(b, chunks)
  {
    assert (chunks + [""])[..|chunks|] == chunks;
  }

  /** Compared with the line framer on the same stream: the line framer's complete lines are
      exactly the complete lines inside the logged entries, and its residue is the tail of the
      entries after their last newline followed by the buffer. So the entries hold every line
      the line framer logs, but not necessarily one line per entry. */
  lemma {:induction false} ReplayVersusFrame(b: string, chunks: seq<string>)
    requires NL !in b
    ensures Frame(b + Concat(chunks)) ==
            Framed(Frame(Concat(Replay(b, chunks).entries)).lines,
                   Frame(Concat(Replay(b, chunks).entries)).rest + Replay(b, chunks).rest)
  {
    var e := Replay(b, chunks);
    var c := Concat(e.entries);
    ReplayConserves(b, chunks);
    FrameAppend(c, e.rest);
    FrameIsFraming(c);
    NoNewlineAppend(Frame(c).rest, e.rest);
    FrameNoNewline(Frame(c).rest + e.rest);
    SeqNil(Frame(c).lines);
  }

  lemma NoNewlineAppend(a: string, b: string)
    requires NL !in a && NL !in b
    ensures NL !in a + b
  {
  }

  /** The two framers disagree as soon as a chunk carries text past its newline: the chunks
      "a\nb" and "c\n" are logged as the entries "a\nb" and "c\n", where the line framer logs
      the lines "a\n" and "bc\n" (`SplitLineFramed`). */
  lemma SplitLineReplayed()
    ensures Replay("", ["a\nb", "c\n"]).entries == ["a\nb", "c\n"]
  {
    var c0, c1 := "a\nb", "c\n";
    var none: seq<string> := [];
    assert [c0, c1][..1] == [c0] && [c0][..0] == none;
    assert c0[1] == NL && c1[1] == NL;
    assert "" + c0 == c0 && "" + c1 == c1;
    assert Replay("", [c0]) == Emitted([c0], "");
  }

  lemma SplitLineFramed()
    ensures Frame("a\nb" + "c\n").lines == ["a\n", "bc\n"]
  {
    var l0, l1 := "a\n", "bc\n";
    assert l0[..1] == "a" && l1[..2] == "bc";
    assert IsLine(l0) && IsLine(l1);
    assert AllLines([l0, l1]);
    ConcatCons(l0, [l1]);
    ConcatOne(l1);
    assert [l0] + [l1] == [l0, l1];
    assert Concat([l0, l1]) + "" == "a\nb" + "c\n";
    FrameUnique("a\nb" + "c\n", [l0, l1], "");
  }

  /** The earlier read loop's state. `fed` (the non-empty text received since the loop
      started) and `emitted` (the entries logged by this loop) exist for the proof only. */
  class WholeBufferFramer {
    var buffer: string
    var output: seq<string>
    ghost var fed: string
    ghost var emitted: seq<string>

    /** Nothing received is lost, every entry holds a newline and the buffer holds none. */
    ghost predicate Valid()
      reads this
    {
      Concat(emitted) + buffer == fed && AllHaveNewline(emitted) && NL !in buffer
    }

    constructor ()
      ensures Valid()
      ensures buffer == "" && output == [] && fed == "" && emitted == []
    {
      buffer := "";
      output := [];
      fed := "";
      emitted := [];
    }

    /** One chunk from the reader: ignored when empty; otherwise appended, and when the buffer
        then holds a newline it is logged whole and emptied. */
    method Feed(chunk: string)
      requires Valid()
      modifies this
      ensures Valid()
      ensures Emitted(emitted, buffer) == Accept(Emitted(old(emitted), old(buffer)), chunk)
      ensures output == old(output) + emitted[|old(emitted)|..]
      ensures fed == old(fed) + chunk
    {
      AcceptKeeps(Emitted(emitted, buffer), chunk);
      SeqAssoc(Concat(emitted), buffer, chunk);
      if chunk != "" {
        buffer := buffer + chunk;
        fed := fed + chunk;
        if NL in buffer {
          output := output + [buffer];
          emitted := emitted + [buffer];
          buffer := "";
        }
      }
      if emitted == old(emitted) {
        assert emitted[|old(emitted)|..] == [];
        SeqNil(output);
      } else {
        assert emitted[|old(emitted)|..] == [old(buffer) + chunk];
      }
      if chunk == "" {
        SeqNil(fed);
      }
    }

    /** The loop over a stream of chunks until the reader reports it is done. */
    method Run(chunks: seq<string>)
      requires Valid()
      modifies this
      ensures Valid()
      ensures fed == old(fed) + Concat(chunks)
      ensures emitted == old(emitted) + Replay(old(buffer), chunks).entries
      ensures buffer == Replay(old(buffer), chunks).rest
      ensures output == old(output) + Replay(old(buffer), chunks).entries
    {
      SeqNil(old(emitted));
      SeqNil(old(output));
      SeqNil(old(fed));
      assert chunks[..0] == [];
      var n := 0;
      while n < |chunks|
        invariant n <= |chunks|
        invariant Valid()
        invariant fed == old(fed) + Concat(chunks[..n])
        invariant emitted == old(emitted) + Replay(old(buffer), chunks[..n]).entries
        invariant buffer == Replay(old(buffer), chunks[..n]).rest
        invariant output == old(output) + Replay(old(buffer), chunks[..n]).entries
      {
        ghost var before := Replay(old(buffer), chunks[..n]);
        ghost var e0 := emitted;
        Feed(chunks[n]);
        TakeSnoc(chunks, n);
        assert chunks[..n + 1][..n] == chunks[..n];
        ghost var after := Accept(before, chunks[n]);
        assert Replay(old(buffer), chunks[..n + 1]) == after;
        ReplayStep(old(emitted), before, chunks[n], e0, emitted);
        SeqAssoc(old(output), before.entries, emitted[|e0|..]);
        ConcatSnoc(old(fed), chunks[..n], chunks[n]);
        n := n + 1;
      }
      assert chunks[..n] == chunks;
    }

    /** The effect's teardown only stops the loop: the buffer is dropped with the closure that
        held it, and the log keeps exactly what it had. */
    method Cleanup()
      modifies this
      ensures output == old(output)
      ensures buffer == "" && fed == "" && emitted == []
      ensures Valid()
    {
      buffer := "";
      fed := "";
      emitted := [];
    }

    /** `clearOutput`: the log is emptied and nothing else changes. */
    method ClearOutput()
      modifies this
      ensures output == []
      ensures buffer == old(buffer) && fed == old(fed) && emitted == old(emitted)
    {
      output := [];
    }
  }

  /** How the entries of one loop step extend the entries before it. */
  lemma {:induction false} ReplayStep(
    base: seq<string>, before: Emitted, chunk: string, e0: seq<string>, e1: seq<string>)
    requires e0 == base + before.entries
    requires Emitted(e1, Accept(before, chunk).rest) ==
             Accept(Emitted(e0, before.rest), chunk)
    ensures |e0| <= |e1|
    ensures e1 == base + Accept(before, chunk).entries
    ensures Accept(before, chunk).entries == before.entries + e1[|e0|..]
  {
    var a := Accept(before, chunk);
    if chunk == "" || NL !in before.rest + chunk {
      assert e1 == e0;
      assert e1[|e0|..] == [];
      SeqNil(before.entries);
    } else {
      var l := before.rest + chunk;
      SeqAssoc(base, before.entries, [l]);
      assert e1[|e0|..] == [l];
    }
  }
}
