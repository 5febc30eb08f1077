/**
 Moving octets between two callbacks through a fixed buffer, within a budget.
 A callback that captures mutable state is a function on that state here; the loop threads
 the state through, and its whole effect is the recursive function `Pump`.
 */
module IoAdapter {
  import opened Text

  const BUFFER_SIZE: nat := 65536

  // ---- The buffer ----

  /** A fixed array, of which the part from `begin` to `end` is still to be read. */
  class BufferSpan {
    const storage: array<char>
    var begin: nat
    var end: nat

    ghost predicate Valid()
      reads this
    {
      begin <= end <= storage.Length
    }

    /** The octets that are still to be read. */
    ghost function Unread(): string
      reads this, storage
      requires Valid()
    {
      storage[begin..end]
    }

    constructor (size: nat)
      ensures Valid() && fresh(storage) && storage.Length == size && Unread() == []
    {
      storage := new char[size];
      begin, end := 0, 0;
    }

    method ResetWithNewLength(length: nat)
      requires length <= storage.Length
      modifies this
      ensures Valid() && Unread() == storage[..length]
    {
      begin, end := 0, length;
    }

    /** A read callback that puts `bytes` at the start of the storage, and the reset after it. */
    method Fill(bytes: string)
      requires |bytes| <= storage.Length
      modifies this, storage
      ensures Valid() && Unread() == bytes
    {
      for i := 0 to |bytes|
        invariant storage[..i] == bytes[..i]
      {
        storage[i] := bytes[i];
      }
      ResetWithNewLength(|bytes|);
    }

    /** What may be read, cut at `maxLength`. */
    method SpanToRead(maxLength: nat) returns (span: string)
      requires Valid()
      ensures span == Unread()[..Min(maxLength, |Unread()|)]
    {
      var n := Min(maxLength, end - begin);
      span := storage[begin..begin + n];
    }

    method ConsumeElements(count: nat)
      requires Valid() && count <= |Unread()|
      modifies this
      ensures Valid() && Unread() == old(Unread())[count..]
    {
      begin := begin + count;
    }
  }

  function Min(a: nat, b: nat): nat {
    if a < b then a else b
  }

  // ---- Callbacks ----

  /** A read callback: what it does to its state, what it fetched, and its code. */
  datatype Source<!S, !E> = Source(read: (S, nat) -> Fetched<S, E>, stops: E -> bool)

  datatype Fetched<S, E> = Fetched(state: S, bytes: string, ec: E)

  /** A write callback: given a span and the budget, how much of the span it took. */
  datatype Sink<!W, !F> = Sink(write: (W, string, nat) -> Taken<W, F>, stops: F -> bool)

  datatype Taken<W, F> = Taken(state: W, count: nat, ec: F)

  /** A source never fetches more than there is room for. */
  ghost predicate SourceInBounds<S(!new), E(!new)>(src: Source<S, E>) {
    forall s, room :: |src.read(s, room).bytes| <= room
  }

  /** A sink never takes more than it is offered. */
  ghost predicate SinkInBounds<W(!new), F(!new)>(snk: Sink<W, F>) {
    forall w, span, budget :: snk.write(w, span, budget).count <= |span|
  }

  // ---- The transfer ----

  /** Which callback stopped the transfer, with its code; or the budget was used up. */
  datatype Ending<+E, +F> = SourceStopped(sourceCode: E) | SinkStopped(sinkCode: F) | BudgetSpent

  datatype Transfer<S, W, E, F> = Transfer(
    source: S,
    sink: W,
    buffer: string,
    budget: nat,
    fetched: string,
    delivered: string,
    ending: Ending<E, F>)
  {
    function Before(fetchedFirst: string, deliveredFirst: string): Transfer<S, W, E, F> {
      this.(fetched := fetchedFirst + fetched, delivered := deliveredFirst + delivered)
    }
  }

  /** The whole transfer; `fetched` and `delivered` record what went through the callbacks. */
  ghost function Pump<S(!new), W(!new), E(!new), F(!new)>(
    src: Source<S, E>, snk: Sink<W, F>, room: nat, s: S, w: W, buffer: string, budget: nat): Transfer<S, W, E, F>
    requires SourceInBounds(src) && SinkInBounds(snk)
    decreases budget, buffer == []
  {
    if budget == 0 then Transfer(s, w, buffer, 0, "", "", BudgetSpent)
    else if buffer == [] then
      var got := src.read(s, room);
      if src.stops(got.ec) || got.bytes == [] then
        Transfer(got.state, w, got.bytes, budget, got.bytes, "", SourceStopped(got.ec))
      else Pump(src, snk, room, got.state, w, got.bytes, budget).Before(got.bytes, "")
    else
      var span := buffer[..Min(budget, |buffer|)];
      var took := snk.write(w, span, budget);
      if snk.stops(took.ec) || took.count == 0 then
        Transfer(s, took.state, buffer[took.count..], budget - took.count, "", span[..took.count], SinkStopped(took.ec))
      else
        Pump(src, snk, room, s, took.state, buffer[took.count..], budget - took.count).Before("", span[..took.count])
  }

  /** One turn of a transfer. */
  lemma PumpOnce<S(!new), W(!new), E(!new), F(!new)>(
    src: Source<S, E>, snk: Sink<W, F>, room: nat, s: S, w: W, buffer: string, budget: nat)
    requires SourceInBounds(src) && SinkInBounds(snk)
    ensures var t := Pump(src, snk, room, s, w, buffer, budget);
            if budget == 0 then t == Transfer(s, w, buffer, 0, "", "", BudgetSpent)
            else if buffer == [] then
              var got := src.read(s, room);
              t == if src.stops(got.ec) || got.bytes == [] then
                     Transfer(got.state, w, got.bytes, budget, got.bytes, "", SourceStopped(got.ec))
                   else Pump(src, snk, room, got.state, w, got.bytes, budget).Before(got.bytes, "")
            else
              var span := buffer[..Min(budget, |buffer|)];
              var took := snk.write(w, span, budget);
              t == if snk.stops(took.ec) || took.count == 0 then
                     Transfer(s, took.state, buffer[took.count..], budget - took.count, "", span[..took.count], SinkStopped(took.ec))
                   else
                     Pump(src, snk, room, s, took.state, buffer[took.count..], budget - took.count).Before("", span[..took.count])
  {
  }

  /** The loop of `transfer_data`. */
  method TransferData<S(!new), W(!new), E(!new), F(!new)>(
    src: Source<S, E>, snk: Sink<W, F>, s0: S, w0: W, buffer: BufferSpan, budget: nat)
    returns (s: S, w: W, left: nat, ending: Ending<E, F>)
    requires SourceInBounds(src) && SinkInBounds(snk) && buffer.Valid()
    modifies buffer, buffer.storage
    ensures buffer.Valid()
    ensures var t := Pump(src, snk, buffer.storage.Length, s0, w0, old(buffer.Unread()), budget);
            s == t.source && w == t.sink && left == t.budget && ending == t.ending && buffer.Unread() == t.buffer
  {
    hide Pump;
    s, w, left := s0, w0, budget;
    ghost var room := buffer.storage.Length;
    ghost var all := Pump(src, snk, room, s0, w0, buffer.Unread(), budget);
    ghost var fetched, delivered := "", "";
    while left != 0
      invariant buffer.Valid()
      invariant all == Pump(src, snk, room, s, w, buffer.Unread(), left).Before(fetched, delivered)
      decreases left, buffer.Unread() == []
    {
      PumpOnce(src, snk, room, s, w, buffer.Unread(), left);
      if buffer.begin == buffer.end {
        var got := src.read(s, buffer.storage.Length);
        s := got.state;
        buffer.Fill(got.bytes);
        if src.stops(got.ec) || got.bytes == [] {
          return s, w, left, SourceStopped(got.ec);
        }
        BeforeTwice(fetched, delivered, got.bytes, "", Pump(src, snk, room, s, w, buffer.Unread(), left));
        fetched, delivered := fetched + got.bytes, delivered + "";
      } else {
        var span := buffer.SpanToRead(left);
        var took := snk.write(w, span, left);
        w := took.state;
        buffer.ConsumeElements(took.count);
        left := left - took.count;
        if snk.stops(took.ec) || took.count == 0 {
          return s, w, left, SinkStopped(took.ec);
        }
        BeforeTwice(fetched, delivered, "", span[..took.count], Pump(src, snk, room, s, w, buffer.Unread(), left));
        fetched, delivered := fetched + "", delivered + span[..took.count];
      }
    }
    PumpOnce(src, snk, room, s, w, buffer.Unread(), left);
    ending := BudgetSpent;
  }

  lemma BeforeTwice<S, W, E, F>(a: string, b: string, c: string, d: string, t: Transfer<S, W, E, F>)
    ensures t.Before(c, d).Before(a, b) == t.Before(a + c, b + d)
  {
    Associates(a, c, t.fetched);
    Associates(b, d, t.delivered);
  }

  // ---- What every transfer keeps ----

  /**
   Conservation: nothing is lost, duplicated or reordered, and the budget pays for exactly
   what was delivered. The transfer ends for the one reason it gives.
   */
  lemma {:induction false} Conservation<S(!new), W(!new), E(!new), F(!new)>(
    src: Source<S, E>, snk: Sink<W, F>, room: nat, s: S, w: W, buffer: string, budget: nat)
    requires SourceInBounds(src) && SinkInBounds(snk)
    ensures var t := Pump(src, snk, room, s, w, buffer, budget);
            t.delivered + t.buffer == buffer + t.fetched &&
            t.budget + |t.delivered| == budget &&
            (t.ending.BudgetSpent? ==> t.budget == 0) &&
            (t.ending.SourceStopped? ==> t.budget > 0) &&
            (buffer == [] || |buffer| <= room ==> |t.buffer| <= room)
    decreases budget, buffer == []
  {
    hide Pump;
    PumpOnce(src, snk, room, s, w, buffer, budget);
    if budget == 0 {
      assert "" + buffer == buffer + "";
    } else if buffer == [] {
      var got := src.read(s, room);
      if src.stops(got.ec) || got.bytes == [] {
        assert "" + got.bytes == buffer + got.bytes;
      } else {
        Conservation(src, snk, room, got.state, w, got.bytes, budget);
        var t := Pump(src, snk, room, got.state, w, got.bytes, budget);
        Neutral(t.delivered);
        Neutral(got.bytes + t.fetched);
      }
    } else {
      var span := buffer[..Min(budget, |buffer|)];
      var took := snk.write(w, span, budget);
      var n := took.count;
      assert span[..n] == buffer[..n];
      SplitAt(buffer, n);
      if snk.stops(took.ec) || n == 0 {
        Neutral(buffer);
      } else {
        Conservation(src, snk, room, s, took.state, buffer[n..], budget - n);
        var t := Pump(src, snk, room, s, took.state, buffer[n..], budget - n);
        Neutral(t.fetched);
        Associates(buffer[..n], t.delivered, t.buffer);
        Associates(buffer[..n], buffer[n..], t.fetched);
      }
    }
  }

  /** If `rest` says what a source still has, a transfer takes what it fetched off the front. */
  lemma {:induction false} SourceGives<S(!new), W(!new), E(!new), F(!new)>(
    src: Source<S, E>, snk: Sink<W, F>, room: nat, s: S, w: W, buffer: string, budget: nat, rest: S -> string)
    requires SourceInBounds(src) && SinkInBounds(snk)
    requires forall x, n {:trigger src.read(x, n)} :: rest(x) == src.read(x, n).bytes + rest(src.read(x, n).state)
    ensures var t := Pump(src, snk, room, s, w, buffer, budget);
            rest(s) == t.fetched + rest(t.source)
    decreases budget, buffer == []
  {
    if budget == 0 {
      Neutral(rest(s));
    } else if buffer == [] {
      var got := src.read(s, room);
      if !(src.stops(got.ec) || got.bytes == []) {
        SourceGives(src, snk, room, got.state, w, got.bytes, budget, rest);
        var t := Pump(src, snk, room, got.state, w, got.bytes, budget);
        Associates(got.bytes, t.fetched, rest(t.source));
      }
    } else {
      var span := buffer[..Min(budget, |buffer|)];
      var took := snk.write(w, span, budget);
      if !(snk.stops(took.ec) || took.count == 0) {
        SourceGives(src, snk, room, s, took.state, buffer[took.count..], budget - took.count, rest);
        var t := Pump(src, snk, room, s, took.state, buffer[took.count..], budget - took.count);
        Neutral(t.fetched);
      } else {
        Neutral(rest(s));
      }
    }
  }

  /** If `taken` says what a sink has accepted, a transfer adds what it delivered at the end. */
  lemma {:induction false} SinkAccepts<S(!new), W(!new), E(!new), F(!new)>(
    src: Source<S, E>, snk: Sink<W, F>, room: nat, s: S, w: W, buffer: string, budget: nat, taken: W -> string)
    requires SourceInBounds(src) && SinkInBounds(snk)
    requires forall x, span, n {:trigger snk.write(x, span, n)} ::
               taken(snk.write(x, span, n).state) == taken(x) + span[..snk.write(x, span, n).count]
    ensures var t := Pump(src, snk, room, s, w, buffer, budget);
            taken(t.sink) == taken(w) + t.delivered
    decreases budget, buffer == []
  {
    if budget == 0 {
      Neutral(taken(w));
    } else if buffer == [] {
      var got := src.read(s, room);
      if src.stops(got.ec) || got.bytes == [] {
        Neutral(taken(w));
      } else {
        SinkAccepts(src, snk, room, got.state, w, got.bytes, budget, taken);
        Neutral(Pump(src, snk, room, got.state, w, got.bytes, budget).delivered);
      }
    } else {
      var span := buffer[..Min(budget, |buffer|)];
      var took := snk.write(w, span, budget);
      if !(snk.stops(took.ec) || took.count == 0) {
        SinkAccepts(src, snk, room, s, took.state, buffer[took.count..], budget - took.count, taken);
        var t := Pump(src, snk, room, s, took.state, buffer[took.count..], budget - took.count);
        Associates(taken(w), span[..took.count], t.delivered);
      }
    }
  }
}
