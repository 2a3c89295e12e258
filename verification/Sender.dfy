/**
 * The sending application of examples/tcp/tcp-large-transfer.cc: a cyclic buffer written to a socket
 * that may take part of what it is offered, refuse it, or have no room.
 */
module Sender {

  const TOTAL: nat := 2000000
  const WRITE: nat := 1040

  /** What the socket answers in one round of the loop: its free space, and the result of Send. */
  datatype Reply = Reply(avail: nat, sent: int)

  function Min(a: nat, b: nat): (m: nat)
    ensures m <= a && m <= b && (m == a || m == b)
  {
    if a <= b then a else b
  }

  /** The k-th letter of the endless alphabet. */
  function Letter(k: nat): nat { 97 + k % 26 }

  /** The small letters in their order, over and over. */
  lemma {:induction false} LettersInOrder(k: nat)
    ensures Letter(0) as char == 'a' && Letter(25) as char == 'z'
    ensures Letter(k + 26) == Letter(k)
    ensures Letter(k) as char != 'z' ==> Letter(k + 1) == Letter(k) + 1
  {
  }

  ghost predicate IsAlphabet(s: seq<nat>) {
    forall k :: 0 <= k < |s| ==> s[k] == Letter(k)
  }

  // ----- One callback and a series of them, as functions of the number of bytes sent -----

  /** The size of the next write. */
  function Offer(c: nat, avail: nat): nat
    requires c < TOTAL
  {
    Min(Min(WRITE - c % WRITE, TOTAL - c), avail)
  }

  /** The next write is the largest that fits the free space, the bytes left and the rest of the buffer. */
  lemma {:induction false} OfferIsLargest(c: nat, avail: nat, n: nat)
    requires c < TOTAL
    ensures n <= Offer(c, avail) <==> n <= avail && c + n <= TOTAL && c % WRITE + n <= WRITE
  {
  }

  /** The number of bytes sent after a callback in which the socket answers as given. */
  function Round(c: nat, replies: seq<Reply>): nat
    decreases |replies|
  {
    if c >= TOTAL || replies == [] || replies[0].avail == 0 || replies[0].sent < 0 then c
    else Round(c + Min(replies[0].sent, Offer(c, replies[0].avail)), replies[1..])
  }

  function Rounds(c: nat, rounds: seq<seq<Reply>>): nat
    decreases |rounds|
  {
    if rounds == [] then c else Round(Rounds(c, rounds[..|rounds| - 1]), rounds[|rounds| - 1])
  }

  /** A callback ends at the first reply without room or with a refusal, whatever would come after it. */
  lemma {:induction false} RoundEndsAt(c: nat, replies: seq<Reply>, k: nat)
    requires k < |replies| && (replies[k].avail == 0 || replies[k].sent < 0)
    ensures Round(c, replies) == Round(c, replies[..k])
    decreases k
  {
    if k == 0 || c >= TOTAL || replies[0].avail == 0 || replies[0].sent < 0 {
    } else {
      assert replies[..k][1..] == replies[1..][..k - 1];
      RoundEndsAt(c + Min(replies[0].sent, Offer(c, replies[0].avail)), replies[1..], k - 1);
    }
  }

  /** A reply that accepts carries as much as socket, buffer and remaining bytes allow. */
  lemma {:induction false} OneReply(c: nat, r: Reply, n: nat)
    requires c < TOTAL && r.avail > 0 && r.sent >= 0
    ensures c + n <= Round(c, [r]) <==> n <= r.sent && n <= r.avail && c + n <= TOTAL && c % WRITE + n <= WRITE
  {
    OfferIsLargest(c, r.avail, n);
    var m := Min(r.sent, Offer(c, r.avail));
    assert [r][1..] == [];
    assert Round(c, [r]) == Round(c + m, []);
  }

  lemma {:induction false} RoundStaysWithin(c: nat, replies: seq<Reply>)
    requires c <= TOTAL
    ensures c <= Round(c, replies) <= TOTAL
    decreases |replies|
  {
    if c >= TOTAL || replies == [] || replies[0].avail == 0 || replies[0].sent < 0 {
    } else {
      RoundStaysWithin(c + Min(replies[0].sent, Offer(c, replies[0].avail)), replies[1..]);
    }
  }

  lemma {:induction false} RoundsStayWithin(c: nat, rounds: seq<seq<Reply>>)
    requires c <= TOTAL
    ensures c <= Rounds(c, rounds) <= TOTAL
    decreases |rounds|
  {
    if rounds == [] {
    } else {
      RoundsStayWithin(c, rounds[..|rounds| - 1]);
      RoundStaysWithin(Rounds(c, rounds[..|rounds| - 1]), rounds[|rounds| - 1]);
    }
  }

  /** A reply that takes something. */
  predicate Willing(r: Reply) { r.avail > 0 && r.sent > 0 }

  /** Each willing reply carries at least one byte, so the transfer is complete after enough of them. */
  lemma {:induction false} WillingProgress(c: nat, replies: seq<Reply>)
    requires c <= TOTAL && forall i :: 0 <= i < |replies| ==> Willing(replies[i])
    ensures Round(c, replies) >= Min(TOTAL, c + |replies|)
    decreases |replies|
  {
    if c >= TOTAL || replies == [] {
    } else {
      assert Willing(replies[0]);
      var n := Min(replies[0].sent, Offer(c, replies[0].avail));
      assert n >= 1;
      WillingProgress(c + n, replies[1..]);
    }
  }

  // ----- The socket -----

  class Socket {
    var replies: seq<Reply>
    var accepted: seq<nat>
    var closedAt: seq<nat>

    constructor ()
      ensures replies == [] && accepted == [] && closedAt == []
    {
      replies, accepted, closedAt := [], [], [];
    }

    method GetTxAvailable() returns (avail: nat)
      ensures avail == if replies == [] then 0 else replies[0].avail
    {
      avail := if replies == [] then 0 else replies[0].avail;
    }

    /** Takes at most n bytes of the buffer, or refuses. */
    method Send(buffer: array<nat>, offset: nat, n: nat) returns (sent: int)
      requires replies != [] && offset + n <= buffer.Length
      modifies this
      ensures replies == old(replies)[1..] && closedAt == old(closedAt)
      ensures sent < 0 <==> old(replies)[0].sent < 0
      ensures sent < 0 ==> accepted == old(accepted)
      ensures sent >= 0 ==>
                sent == Min(old(replies)[0].sent, n) && accepted == old(accepted) + buffer[offset..offset + sent]
    {
      if replies[0].sent < 0 {
        sent := replies[0].sent;
      } else {
        sent := Min(replies[0].sent, n);
        accepted := accepted + buffer[offset..offset + sent];
      }
      replies := replies[1..];
    }

    method Close()
      modifies this
      ensures closedAt == old(closedAt) + [|accepted|]
      ensures replies == old(replies) && accepted == old(accepted)
    {
      closedAt := closedAt + [|accepted|];
    }
  }

  // ----- The application -----

  class Application {
    var currentTxBytes: nat
    const data: array<nat>

    /** The buffer holds the alphabet, and what was sent is as long as the counter says. */
    ghost predicate Valid(socket: Socket)
      reads this, data, socket
    {
      data.Length == WRITE
      && IsAlphabet(data[..])
      && currentTxBytes == |socket.accepted| <= TOTAL
      && IsAlphabet(socket.accepted)
      && forall i :: 0 <= i < |socket.closedAt| ==> socket.closedAt[i] == TOTAL
    }

    /** The transmit buffer is filled before anything is sent. */
    constructor (socket: Socket)
      requires socket.accepted == [] && socket.closedAt == []
      ensures Valid(socket) && currentTxBytes == 0 && fresh(data)
    {
      currentTxBytes := 0;
      data := new nat[WRITE];
      new;
      for i := 0 to WRITE
        invariant forall k :: 0 <= k < i ==> data[k] == Letter(k)
        invariant currentTxBytes == 0 && |socket.accepted| == 0 && |socket.closedAt| == 0
      {
        data[i] := (97 + i % 26) % 128;
      }
    }

    /** The body of the loop; false when the socket refuses. */
    method WriteOnce(socket: Socket, avail: nat) returns (ok: bool)
      requires Valid(socket) && currentTxBytes < TOTAL
      requires socket.replies != [] && avail == socket.replies[0].avail > 0
      modifies this, socket
      ensures Valid(socket) && old(socket.accepted) <= socket.accepted && socket.closedAt == old(socket.closedAt)
      ensures ok ==> Round(currentTxBytes, socket.replies) == Round(old(currentTxBytes), old(socket.replies))
      ensures ok ==> |socket.replies| < |old(socket.replies)|
      ensures !ok ==> currentTxBytes == old(currentTxBytes) == Round(old(currentTxBytes), old(socket.replies))
    {
      var left := TOTAL - currentTxBytes;
      var dataOffset := currentTxBytes % WRITE;
      var toWrite := WRITE - dataOffset;
      toWrite := Min(toWrite, left);
      toWrite := Min(toWrite, avail);
      var amountSent := socket.Send(data, dataOffset, toWrite);
      ok := amountSent >= 0;
      if ok {
        Continues(old(socket.accepted), data[..], dataOffset, amountSent);
        assert data[..][dataOffset..dataOffset + amountSent] == data[dataOffset..dataOffset + amountSent];
        currentTxBytes := currentTxBytes + amountSent;
      }
    }

    /** The callback of the socket. */
    method WriteUntilBufferFull(socket: Socket)
      requires Valid(socket)
      modifies this, socket
      ensures Valid(socket) && old(socket.accepted) <= socket.accepted
      ensures currentTxBytes == Round(old(currentTxBytes), old(socket.replies))
      ensures socket.closedAt == old(socket.closedAt) + if currentTxBytes == TOTAL then [TOTAL] else []
    {
      ghost var c0, r0 := currentTxBytes, socket.replies;
      var avail := socket.GetTxAvailable();
      while currentTxBytes < TOTAL && avail > 0
        invariant Valid(socket) && old(socket.accepted) <= socket.accepted
        invariant avail == if socket.replies == [] then 0 else socket.replies[0].avail
        invariant socket.closedAt == old(socket.closedAt)
        invariant Round(currentTxBytes, socket.replies) == Round(c0, r0)
        decreases |socket.replies|
      {
        var ok := WriteOnce(socket, avail);
        if !ok {
          return;
        }
        avail := socket.GetTxAvailable();
      }
      if currentTxBytes >= TOTAL {
        socket.Close();
      }
    }
  }

  /** The buffer is a whole number of alphabets long, so any part of it continues the stream. */
  lemma {:induction false} Continues(sent: seq<nat>, data: seq<nat>, offset: nat, n: nat)
    requires IsAlphabet(sent) && IsAlphabet(data) && |data| == WRITE
    requires offset == |sent| % WRITE && offset + n <= WRITE
    ensures IsAlphabet(sent + data[offset..offset + n])
  {
    var s := sent + data[offset..offset + n];
    forall k | |sent| <= k < |s|
      ensures s[k] == Letter(k)
    {
      SamePhase(|sent|, k - |sent|);
    }
  }

  lemma {:induction false} SamePhase(c: nat, j: nat)
    ensures (c % WRITE + j) % 26 == (c + j) % 26
  {
    var q := c / WRITE;
    assert c == 26 * (40 * q) + c % WRITE;
    ModShift(c % WRITE + j, 40 * q);
  }

  lemma {:induction false} ModShift(a: nat, q: nat)
    ensures (a + 26 * q) % 26 == a % 26
    decreases q
  {
    if q == 0 {
    } else {
      ModShift(a, q - 1);
      assert a + 26 * q == (a + 26 * (q - 1)) + 26;
    }
  }

  // ----- A whole transfer -----

  /** How many of the callbacks end with everything sent. */
  function Completed(rounds: seq<seq<Reply>>): nat
    decreases |rounds|
  {
    if rounds == [] then 0
    else Completed(rounds[..|rounds| - 1]) + if Rounds(0, rounds) == TOTAL then 1 else 0
  }

  /** The start of the flow and every later callback, whatever the socket answers in each. */
  method Transfer(rounds: seq<seq<Reply>>) returns (sentBytes: nat, stream: seq<nat>, closedAt: seq<nat>)
    ensures sentBytes == |stream| == Rounds(0, rounds) <= TOTAL
    ensures IsAlphabet(stream)
    ensures |closedAt| == Completed(rounds) && forall i :: 0 <= i < |closedAt| ==> closedAt[i] == TOTAL
    ensures closedAt != [] <==> rounds != [] && sentBytes == TOTAL
  {
    var socket := new Socket();
    var app := new Application(socket);
    for k := 0 to |rounds|
      invariant app.Valid(socket) && fresh(socket) && fresh(app) && fresh(app.data)
      invariant app.currentTxBytes == Rounds(0, rounds[..k])
      invariant |socket.closedAt| == Completed(rounds[..k])
      invariant socket.closedAt != [] <==> k > 0 && app.currentTxBytes == TOTAL
    {
      assert rounds[..k + 1][..k] == rounds[..k] && rounds[..k + 1][k] == rounds[k];
      RoundStaysWithin(app.currentTxBytes, rounds[k]);
      socket.replies := rounds[k];
      app.WriteUntilBufferFull(socket);
    }
    assert rounds[..|rounds|] == rounds;
    return app.currentTxBytes, socket.accepted, socket.closedAt;
  }
}
