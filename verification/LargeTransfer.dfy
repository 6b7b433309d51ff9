/** The partial-write sender of examples/tcp/tcp-large-transfer.cc. */
module LargeTransfer {
  import opened Wrappers

  type Byte = b: int | 0 <= b < 256

  const TOTAL_TX_BYTES: nat := 2000000
  const WRITE_SIZE: nat := 1040

  /** Byte k of the stream that the receiver should see. */
  function Letter(k: nat): Byte { 97 + k % 26 }

  predicate IsPattern(s: seq<Byte>) { forall k :: 0 <= k < |s| ==> s[k] == Letter(k) }

  /** One turn of the socket: the free space it reports twice, and the result of
      Send before it is cut to what was offered. */
  datatype Answer = Answer(room: nat, roomAgain: nat, sent: int)

  /** A socket that gives any answers allowed by its contract, for ever: Send
      accepts at most what it is offered, or fails with a negative result. */
  class Socket {
    const answers: nat -> Answer
    var turn: nat
    var stream: seq<Byte>
    var closes: nat

    constructor (answers: nat -> Answer)
      ensures this.answers == answers && turn == 0 && stream == [] && closes == 0
    {
      this.answers := answers;
      turn, stream, closes := 0, [], 0;
    }

    /** GetTxAvailable, when the loop is entered. */
    function Room(): nat
      reads this
    {
      answers(turn).room
    }

    /** GetTxAvailable, when the piece is cut. */
    function RoomAgain(): nat
      reads this
    {
      answers(turn).roomAgain
    }

    method Send(data: array<Byte>, offset: nat, size: nat) returns (r: int)
      requires offset + size <= data.Length
      modifies this
      ensures r == Min(answers(old(turn)).sent, size)
      ensures turn == old(turn) + 1 && closes == old(closes)
      ensures stream == old(stream) + if r > 0 then data[offset..offset + r] else []
    {
      r := Min(answers(turn).sent, size);
      turn := turn + 1;
      if r > 0 { stream := stream + data[offset..offset + r]; }
    }

    method Close()
      modifies this`closes
      ensures closes == old(closes) + 1
    {
      closes := closes + 1;
    }
  }

  /** The buffer length is a multiple of the alphabet, so an offset into the
      buffer and a position in the stream name the same letter. */
  lemma SameLetter(position: nat, i: nat)
    ensures Letter(position % WRITE_SIZE + i) == Letter(position + i)
  {
    var q, r := position / WRITE_SIZE, position % WRITE_SIZE;
    assert position + i == (r + i) + 26 * (40 * q);
    AddMultiple(r + i, 40 * q);
  }

  lemma {:induction false} AddMultiple(a: nat, m: nat)
    ensures (a + 26 * m) % 26 == a % 26
  {
    if m > 0 {
      AddMultiple(a, m - 1);
      assert a + 26 * m == (a + 26 * (m - 1)) + 26;
    }
  }

  class Flow {
    const data: array<Byte>
    var currentTxBytes: nat
    const socket: Socket

    /** What the socket has accepted is the pattern, and currentTxBytes counts it;
        the socket is closed only when everything was accepted. */
    ghost predicate Valid()
      reads this, data, socket
    {
      && data.Length == WRITE_SIZE && (forall i :: 0 <= i < WRITE_SIZE ==> data[i] == Letter(i))
      && currentTxBytes == |socket.stream| <= TOTAL_TX_BYTES
      && IsPattern(socket.stream)
      && (socket.closes > 0 ==> currentTxBytes == TOTAL_TX_BYTES)
    }

    constructor (socket: Socket)
      requires socket.stream == [] && socket.closes == 0
      ensures Valid() && this.socket == socket && currentTxBytes == 0
    {
      this.socket := socket;
      currentTxBytes := 0;
      var buffer := new Byte[WRITE_SIZE];
      for i := 0 to WRITE_SIZE
        invariant forall j :: 0 <= j < i ==> buffer[j] == Letter(j)
      {
        buffer[i] := 97 + i % 26;
      }
      data := buffer;
    }

    /** Offer the next piece of the buffer.  The result is the number of bytes
        accepted, or negative when the socket refused. */
    method SendNext() returns (amountSent: int)
      requires Valid() && currentTxBytes < TOTAL_TX_BYTES
      modifies this, socket
      ensures Valid() && socket.closes == old(socket.closes) && socket.turn == old(socket.turn) + 1
      ensures amountSent == Accepted(old(currentTxBytes), socket.answers(old(socket.turn)))
      ensures currentTxBytes == old(currentTxBytes) + if amountSent > 0 then amountSent else 0
      ensures old(socket.stream) <= socket.stream
      ensures var a, position := socket.answers(old(socket.turn)), old(currentTxBytes);
        if a.sent < 0 then amountSent == a.sent
        else
          0 <= amountSent <= a.sent && Fits(position, a.roomAgain, amountSent) &&
          forall n: nat :: n <= a.sent && Fits(position, a.roomAgain, n) ==> n <= amountSent
    {
      OfferIsLargest(currentTxBytes, socket.RoomAgain());
      var left := TOTAL_TX_BYTES - currentTxBytes;
      var dataOffset := currentTxBytes % WRITE_SIZE;
      var toWrite := WRITE_SIZE - dataOffset;
      toWrite := Min(toWrite, left);
      toWrite := Min(toWrite, socket.RoomAgain());
      ghost var before := socket.stream;
      amountSent := socket.Send(data, dataOffset, toWrite);
      if amountSent < 0 {
        return;
      }
      forall k | |before| <= k < |socket.stream| ensures socket.stream[k] == Letter(k) {
        SameLetter(|before|, k - |before|);
      }
      currentTxBytes := currentTxBytes + amountSent;
    }

    /** Writes until the socket is full, refuses, or has everything, and closes
        it in the last case.  The call returns whenever the socket does not stay
        idle for ever, which is what Ends says (EndsExactlyWhen). */
    method WriteUntilBufferFull()
      requires Valid() && Ends(currentTxBytes, socket.answers, socket.turn)
      modifies this, socket
      ensures Valid()
      ensures old(socket.stream) <= socket.stream && old(socket.turn) <= socket.turn
      ensures |socket.stream| == currentTxBytes <= 2_000_000
      ensures forall k :: 0 <= k < |socket.stream| ==> socket.stream[k] == 97 + k % 26
      ensures socket.closes == old(socket.closes) + if currentTxBytes == TOTAL_TX_BYTES then 1 else 0
      ensures var n := socket.turn - old(socket.turn);
        || (Turns(old(currentTxBytes), socket.answers, old(socket.turn), n) == At(currentTxBytes)
            && (currentTxBytes == TOTAL_TX_BYTES || socket.Room() == 0))
        || (n > 0 && Turns(old(currentTxBytes), socket.answers, old(socket.turn), n - 1) == At(currentTxBytes)
            && currentTxBytes < TOTAL_TX_BYTES && socket.answers(socket.turn - 1).sent < 0)
    {
      hide Turns, Accepted;
      ghost var position, first, answers := currentTxBytes, socket.turn, socket.answers;
      NoTurns(position, answers, first);
      ghost var last: nat :| Turns(position, answers, first, last).Ended?;
      while currentTxBytes < TOTAL_TX_BYTES && socket.Room() > 0
        invariant Valid() && old(socket.stream) <= socket.stream && socket.closes == old(socket.closes)
        invariant first <= socket.turn
        invariant Turns(position, answers, first, socket.turn - first) == At(currentTxBytes)
        decreases last - (socket.turn - first)
      {
        if last <= socket.turn - first { StaysEnded(position, answers, first, last, socket.turn - first); }
        NextTurn(position, answers, first, socket.turn - first);
        RefusedMeans(currentTxBytes, socket.answers(socket.turn));
        var amountSent := SendNext();
        if amountSent < 0 {
          return;
        }
      }
      if currentTxBytes >= TOTAL_TX_BYTES {
        socket.Close();
      }
    }
  }

  // ---------- Turns of the loop, and when they end ----------

  /** How much is offered at a position, given the reported space. */
  function Offer(position: nat, room: nat): nat
    requires position < TOTAL_TX_BYTES
  {
    Min(Min(WRITE_SIZE - position % WRITE_SIZE, TOTAL_TX_BYTES - position), room)
  }

  /** A piece of n bytes fits into the reported room, into the rest of the buffer
      and into what is left of the transfer. */
  predicate Fits(position: nat, room: nat, n: nat) {
    n <= room && position % 1040 + n <= 1040 && position + n <= 2_000_000
  }

  /** The piece that is offered is the largest that fits. */
  lemma OfferIsLargest(position: nat, room: nat)
    requires position < TOTAL_TX_BYTES
    ensures Fits(position, room, Offer(position, room))
    ensures forall n: nat :: Fits(position, room, n) ==> n <= Offer(position, room)
  {}

  /** What Send returns at a position. */
  function Accepted(position: nat, a: Answer): int
    requires position < TOTAL_TX_BYTES
  {
    Min(a.sent, Offer(position, a.roomAgain))
  }

  lemma RefusedMeans(position: nat, a: Answer)
    requires position < TOTAL_TX_BYTES
    ensures Accepted(position, a) < 0 <==> a.sent < 0
  {}

  /** Position after some turns of the loop; Ended once the loop has ended. */
  datatype Progress = At(position: nat) | Ended

  /** n turns from turn number `first` on. */
  function Turns(position: nat, answers: nat -> Answer, first: nat, n: nat): (p: Progress)
    requires position <= TOTAL_TX_BYTES
    ensures p.At? ==> position <= p.position <= TOTAL_TX_BYTES
  {
    if n == 0 then At(position)
    else match Turns(position, answers, first, n - 1)
      case Ended => Ended
      case At(c) =>
        var a := answers(first + n - 1);
        if c == TOTAL_TX_BYTES || a.room == 0 then Ended
        else
          var sent := Accepted(c, a);
          if sent < 0 then Ended else At(c + sent)
  }

  /** One more turn. */
  lemma NextTurn(position: nat, answers: nat -> Answer, first: nat, n: nat)
    requires position <= TOTAL_TX_BYTES && Turns(position, answers, first, n).At?
    ensures var c := Turns(position, answers, first, n).position;
      var a := answers(first + n);
      Turns(position, answers, first, n + 1) ==
        if c == TOTAL_TX_BYTES || a.room == 0 || Accepted(c, a) < 0 then Ended else At(c + Accepted(c, a))
  {
    hide Offer;
  }

  lemma NoTurns(position: nat, answers: nat -> Answer, first: nat)
    requires position <= TOTAL_TX_BYTES
    ensures Turns(position, answers, first, 0) == At(position)
  {}

  ghost predicate Ends(position: nat, answers: nat -> Answer, first: nat)
    requires position <= TOTAL_TX_BYTES
  {
    exists n: nat :: Turns(position, answers, first, n).Ended?
  }

  lemma {:induction false} StaysEnded(position: nat, answers: nat -> Answer, first: nat, n: nat, m: nat)
    requires position <= TOTAL_TX_BYTES && n <= m && Turns(position, answers, first, n).Ended?
    ensures Turns(position, answers, first, m).Ended?
  {
    if n < m { StaysEnded(position, answers, first, n, m - 1); }
  }

  lemma {:induction false} TurnsCompose(position: nat, answers: nat -> Answer, first: nat, m: nat, n: nat)
    requires position <= TOTAL_TX_BYTES && Turns(position, answers, first, m).At?
    ensures Turns(position, answers, first, m + n)
            == Turns(Turns(position, answers, first, m).position, answers, first + m, n)
  {
    if n > 0 {
      TurnsCompose(position, answers, first, m, n - 1);
      assert first + (m + n) - 1 == (first + m) + n - 1;
    }
  }

  /** The socket reports space, does not fail, and accepts nothing. */
  predicate Idle(a: Answer) { a.room > 0 && (a.sent == 0 || (a.sent > 0 && a.roomAgain == 0)) }

  lemma IdleMeans(position: nat, a: Answer)
    requires position < TOTAL_TX_BYTES
    ensures Idle(a) <==> a.room > 0 && Accepted(position, a) == 0
  {}

  /** After m turns some bytes are left, and from then on every turn is idle. */
  ghost predicate StallsAt(position: nat, answers: nat -> Answer, first: nat, m: nat)
    requires position <= TOTAL_TX_BYTES
  {
    var p := Turns(position, answers, first, m);
    p.At? && p.position < TOTAL_TX_BYTES && forall i: nat :: first + m <= i ==> Idle(answers(i))
  }

  lemma {:induction false} StalledForGood(position: nat, answers: nat -> Answer, first: nat, n: nat)
    requires position < TOTAL_TX_BYTES && forall i: nat :: first <= i ==> Idle(answers(i))
    ensures Turns(position, answers, first, n) == At(position)
  {
    if n > 0 {
      StalledForGood(position, answers, first, n - 1);
      assert Idle(answers(first + n - 1));
      IdleMeans(position, answers(first + n - 1));
    }
  }

  /** A loop that never ends stalls: at most TOTAL - position turns accept a byte. */
  lemma {:induction false} EndlessStalls(position: nat, answers: nat -> Answer, first: nat) returns (m: nat)
    requires position <= TOTAL_TX_BYTES && !Ends(position, answers, first)
    ensures StallsAt(position, answers, first, m)
    decreases TOTAL_TX_BYTES - position
  {
    hide Turns, Offer, Idle;
    EndlessLater(position, answers, first, 0);
    NoTurns(position, answers, first);
    if i: nat :| first <= i && !Idle(answers(i)) {
      var k := i - first;
      EndlessLater(position, answers, first, k);
      EndlessLater(position, answers, first, k + 1);
      NextTurn(position, answers, first, k);
      IdleMeans(Turns(position, answers, first, k).position, answers(i));
      var later := Turns(position, answers, first, k + 1).position;
      var m' := EndlessStalls(later, answers, first + (k + 1));
      TurnsCompose(position, answers, first, k + 1, m');
      m := k + 1 + m';
    } else {
      m := 0;
      EndlessLater(position, answers, first, 1);
      NextTurn(position, answers, first, 0);
    }
  }

  lemma EndlessLater(position: nat, answers: nat -> Answer, first: nat, m: nat)
    requires position <= TOTAL_TX_BYTES && !Ends(position, answers, first)
    ensures Turns(position, answers, first, m).At?
    ensures !Ends(Turns(position, answers, first, m).position, answers, first + m)
  {
    assert !Turns(position, answers, first, m).Ended?;
    var p := Turns(position, answers, first, m).position;
    if Ends(p, answers, first + m) {
      var n: nat :| Turns(p, answers, first + m, n).Ended?;
      TurnsCompose(position, answers, first, m, n);
      assert false;
    }
  }

  /** The loop ends unless, with bytes left, every turn from some turn on reports
      space and accepts exactly nothing. */
  lemma EndsExactlyWhen(position: nat, answers: nat -> Answer, first: nat)
    requires position <= TOTAL_TX_BYTES
    ensures Ends(position, answers, first) <==> !exists m: nat :: StallsAt(position, answers, first, m)
  {
    if Ends(position, answers, first) {
      var n: nat :| Turns(position, answers, first, n).Ended?;
      if m: nat :| StallsAt(position, answers, first, m) {
        var p := Turns(position, answers, first, m).position;
        StaysEnded(position, answers, first, n, m + n);
        StalledForGood(p, answers, first + m, n);
        TurnsCompose(position, answers, first, m, n);
        assert false;
      }
    } else {
      var m := EndlessStalls(position, answers, first);
    }
  }

  /** From turn `first` on, the socket accepts something or fails every time. */
  ghost predicate Responsive(answers: nat -> Answer, first: nat) {
    forall i: nat :: first <= i ==> answers(i).sent != 0 && answers(i).roomAgain > 0
  }

  lemma {:induction false} ProgressEachTurn(position: nat, answers: nat -> Answer, first: nat, n: nat)
    requires position <= TOTAL_TX_BYTES && Responsive(answers, first)
    ensures Turns(position, answers, first, n).At? ==> Turns(position, answers, first, n).position >= position + n
  {
    if n > 0 {
      ProgressEachTurn(position, answers, first, n - 1);
      assert answers(first + n - 1).sent != 0 && answers(first + n - 1).roomAgain > 0;
    }
  }

  /** A responsive socket ends the loop within TOTAL - position + 1 turns. */
  lemma LoopEnds(position: nat, answers: nat -> Answer, first: nat)
    requires position <= TOTAL_TX_BYTES && Responsive(answers, first)
    ensures Turns(position, answers, first, TOTAL_TX_BYTES - position + 1).Ended?
    ensures Ends(position, answers, first)
  {
    ProgressEachTurn(position, answers, first, TOTAL_TX_BYTES - position + 1);
  }

  /** A socket that reports space but accepts nothing keeps the loop spinning. */
  lemma LoopCanSpin(position: nat)
    requires position < TOTAL_TX_BYTES
    ensures !Ends(position, (i: nat) => Answer(1, 1, 0), 0)
  {
    var answers := (i: nat) => Answer(1, 1, 0);
    forall n: nat ensures Turns(position, answers, 0, n) == At(position) { StalledForGood(position, answers, 0, n); }
  }
}
