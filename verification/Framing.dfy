/**
 * Incremental framing in general: a reader that peels complete frames off the front of
 * its buffer and waits on an incomplete one gives the same result however the byte
 * stream is cut into chunks.
 */
module Framing {
  import opened Bytes

  /** A frame: its bytes on the wire and what the receiver is to get out of it. */
  datatype Frame<D> = Frame(wire: seq<Byte>, content: D)

  /** One run of a reader over its buffer. */
  datatype Drained<D, F> = Drained(delivered: seq<D>, faults: seq<F>, rest: seq<Byte>, spins: bool)

  type Reader<!D, !F> = seq<Byte> -> Drained<D, F>

  /** On complete frames of the list the reader delivers the content and goes on with what follows. */
  ghost predicate Delivers<D, F>(f: Reader<D, F>, p: Frame<D>) {
    forall rest {:trigger f(p.wire + rest)} ::
      f(p.wire + rest) == f(rest).(delivered := [p.content] + f(rest).delivered)
  }

  /** On a proper prefix of a frame the reader does nothing. */
  ghost predicate Waits<D, F>(f: Reader<D, F>, p: Frame<D>) {
    forall b {:trigger f(b)} :: b < p.wire ==> f(b) == Drained([], [], b, false)
  }

  ghost predicate Handles<D, F>(f: Reader<D, F>, p: Frame<D>) {
    p.wire != [] && Delivers(f, p) && Waits(f, p)
  }

  ghost predicate Reads<D(!new), F>(f: Reader<D, F>, ps: seq<Frame<D>>) {
    && f([]) == Drained([], [], [], false)
    && forall p {:trigger Handles(f, p)} :: p in ps ==> Handles(f, p)
  }

  function Stream<D>(ps: seq<Frame<D>>): seq<Byte> {
    if ps == [] then [] else ps[0].wire + Stream(ps[1..])
  }

  function Contents<D>(ps: seq<Frame<D>>): seq<D> {
    seq(|ps|, i requires 0 <= i < |ps| => ps[i].content)
  }

  /** `rest` is a proper prefix of the first frame still to come, or empty when there is none. */
  ghost predicate Incomplete<D>(rest: seq<Byte>, todo: seq<Frame<D>>) {
    if todo == [] then rest == [] else rest < todo[0].wire
  }

  lemma {:induction false} StreamCons<D>(p: Frame<D>, ps: seq<Frame<D>>)
    ensures Stream([p] + ps) == p.wire + Stream(ps)
  {
    assert ([p] + ps)[1..] == ps;
  }

  lemma {:induction false} StreamAppend<D>(a: seq<Frame<D>>, b: seq<Frame<D>>)
    ensures Stream(a + b) == Stream(a) + Stream(b)
  {
    if a == [] {
      assert a + b == b;
    } else {
      StreamAppend(a[1..], b);
      StreamCons(a[0], a[1..] + b);
      Regroup(a[0].wire, Stream(a[1..]), Stream(b));
      assert a + b == [a[0]] + (a[1..] + b);
    }
  }

  lemma ContentsCons<D>(p: Frame<D>, ps: seq<Frame<D>>)
    ensures Contents([p] + ps) == [p.content] + Contents(ps)
  {
  }

  lemma ContentsAppend<D>(a: seq<Frame<D>>, b: seq<Frame<D>>)
    ensures Contents(a + b) == Contents(a) + Contents(b)
  {
  }

  /** A buffer at least as long as the first frame starts with it. */
  lemma {:induction false} FirstFrame<D>(ps: seq<Frame<D>>, b: seq<Byte>)
    requires ps != [] && b <= Stream(ps)
    ensures |b| < |ps[0].wire| ==> b < ps[0].wire
    ensures |b| >= |ps[0].wire| ==> b == ps[0].wire + b[|ps[0].wire|..] && b[|ps[0].wire|..] <= Stream(ps[1..])
  {
    var w, tail := ps[0].wire, Stream(ps[1..]);
    assert Stream(ps) == w + tail;
    if |b| >= |w| {
      assert b == w + b[|w|..];
      CancelPrefix(w, b[|w|..], tail);
    }
  }

  lemma CancelPrefix(a: seq<Byte>, b: seq<Byte>, c: seq<Byte>)
    requires a + b <= a + c
    ensures b <= c
  {
    assert b == (a + b)[|a|..] && c == (a + c)[|a|..];
  }

  /** A run either waits on the first frame or delivers it and goes on. */
  lemma {:induction false} FirstRun<D(!new), F>(f: Reader<D, F>, ps: seq<Frame<D>>, b: seq<Byte>)
    requires Reads(f, ps) && ps != [] && b <= Stream(ps)
    ensures |b| < |ps[0].wire| ==> b < ps[0].wire && f(b) == Drained([], [], b, false)
    ensures |b| >= |ps[0].wire| ==>
      var b1 := b[|ps[0].wire|..];
      b == ps[0].wire + b1 && |b1| < |b| && b1 <= Stream(ps[1..]) &&
        f(b) == f(b1).(delivered := [ps[0].content] + f(b1).delivered)
  {
    FirstFrame(ps, b);
    assert Handles(f, ps[0]);
    if |b| >= |ps[0].wire| {
      assert f(ps[0].wire + b[|ps[0].wire|..]) == f(b);
    }
  }

  /** Reading any prefix of a stream delivers its complete frames and keeps the incomplete one. */
  lemma {:induction false} ReadsStream<D(!new), F>(f: Reader<D, F>, ps: seq<Frame<D>>, b: seq<Byte>)
    returns (done: seq<Frame<D>>, todo: seq<Frame<D>>)
    requires Reads(f, ps) && b <= Stream(ps)
    ensures ps == done + todo && b == Stream(done) + f(b).rest && Incomplete(f(b).rest, todo)
    ensures f(b) == Drained(Contents(done), [], f(b).rest, false)
  {
    if ps == [] {
      done, todo := [], [];
    } else {
      FirstRun(f, ps, b);
      if |b| < |ps[0].wire| {
        done, todo := [], ps;
      } else {
        var b1 := b[|ps[0].wire|..];
        var done1;
        done1, todo := ReadsStream(f, ps[1..], b1);
        StreamCons(ps[0], done1);
        ContentsCons(ps[0], done1);
        Regroup(ps[0].wire, Stream(done1), f(b1).rest);
        done := [ps[0]] + done1;
        assert ps == [ps[0]] + ps[1..];
      }
    }
  }

  function Flatten(chunks: seq<seq<Byte>>): seq<Byte> {
    if chunks == [] then [] else Flatten(chunks[..|chunks| - 1]) + chunks[|chunks| - 1]
  }

  /** What a reader that has got this far will have done at the end of its run. */
  function Onward<D, F>(s: Drained<D, F>, r: Drained<D, F>): Drained<D, F> {
    Drained(s.delivered + r.delivered, s.faults + r.faults, r.rest, s.spins || r.spins)
  }

  /** The reader after the chunks have come in one by one, with a run after each. */
  function Feed<D, F>(f: Reader<D, F>, chunks: seq<seq<Byte>>): Drained<D, F> {
    if chunks == [] then Drained([], [], [], false) else
    var s := Feed(f, chunks[..|chunks| - 1]);
    Onward(s, f(s.rest + chunks[|chunks| - 1]))
  }

  /** After the frames in `done` the buffer holds `b`: what the next run makes of it. */
  lemma NextRun<D(!new), F>(f: Reader<D, F>, done: seq<Frame<D>>, todo: seq<Frame<D>>, b: seq<Byte>)
    returns (more: seq<Frame<D>>, left: seq<Frame<D>>)
    requires Reads(f, done + todo) && Stream(done) + b <= Stream(done + todo)
    ensures todo == more + left && Incomplete(f(b).rest, left)
    ensures Stream(done) + b == Stream(done + more) + f(b).rest
    ensures f(b) == Drained(f(b).delivered, [], f(b).rest, false) &&
      Contents(done) + f(b).delivered == Contents(done + more)
  {
    StreamAppend(done, todo);
    CancelPrefix(Stream(done), b, Stream(todo));
    more, left := ReadsStream(f, todo, b);
    StreamAppend(done, more);
    ContentsAppend(done, more);
  }

  /** What the reader has done so far: the frames in `done` are delivered, the next is incomplete. */
  ghost predicate GotTo<D, F>(s: Drained<D, F>, got: seq<Byte>, done: seq<Frame<D>>, todo: seq<Frame<D>>) {
    s == Drained(Contents(done), [], s.rest, false) && got == Stream(done) + s.rest && Incomplete(s.rest, todo)
  }

  /** One more chunk arrives, and the reader runs. */
  lemma {:induction false} ChunkArrives<D(!new), F>(f: Reader<D, F>, s: Drained<D, F>, got: seq<Byte>,
    done0: seq<Frame<D>>, todo0: seq<Frame<D>>, chunk: seq<Byte>)
    returns (done: seq<Frame<D>>, todo: seq<Frame<D>>)
    requires Reads(f, done0 + todo0) && GotTo(s, got, done0, todo0) && got + chunk <= Stream(done0 + todo0)
    ensures done0 + todo0 == done + todo && GotTo(Onward(s, f(s.rest + chunk)), got + chunk, done, todo)
  {
    Regroup(Stream(done0), s.rest, chunk);
    var done1;
    done1, todo := NextRun(f, done0, todo0, s.rest + chunk);
    done := done0 + done1;
  }

  /**
   * For every list of frames and every way of cutting (any part of) their bytes into
   * chunks, exactly the complete frames are delivered, in order, and what stays buffered
   * is a proper prefix of the next one.
   */
  lemma {:induction false} ChunksDoNotMatter<D(!new), F>(f: Reader<D, F>, ps: seq<Frame<D>>, chunks: seq<seq<Byte>>)
    returns (done: seq<Frame<D>>, todo: seq<Frame<D>>)
    requires Reads(f, ps) && Flatten(chunks) <= Stream(ps)
    ensures ps == done + todo
    ensures Feed(f, chunks) == Drained(Contents(done), [], Feed(f, chunks).rest, false)
    ensures Flatten(chunks) == Stream(done) + Feed(f, chunks).rest && Incomplete(Feed(f, chunks).rest, todo)
  {
    if chunks == [] {
      if ps != [] { assert Handles(f, ps[0]); }
      done, todo := [], ps;
    } else {
      var front := chunks[..|chunks| - 1];
      done, todo := ChunksDoNotMatter(f, ps, front);
      done, todo := ChunkArrives(f, Feed(f, front), Flatten(front), done, todo, chunks[|chunks| - 1]);
    }
  }

  /** When the chunks make up the whole stream, every frame is delivered and nothing stays behind. */
  lemma {:induction false} WholeStream<D(!new), F>(f: Reader<D, F>, ps: seq<Frame<D>>, chunks: seq<seq<Byte>>)
    requires Reads(f, ps) && Flatten(chunks) == Stream(ps)
    ensures Feed(f, chunks) == Drained(Contents(ps), [], [], false)
  {
    var done, todo := ChunksDoNotMatter(f, ps, chunks);
    StreamAppend(done, todo);
    CancelPrefix(Stream(done), Stream(todo), Feed(f, chunks).rest);
    assert todo == [];
    assert ps == done;
  }
}
