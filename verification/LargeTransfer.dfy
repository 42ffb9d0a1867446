/** The resumable writer of the large TCP transfer (examples/tcp/tcp-large-transfer.cc). */
module LargeTransfer {

  const TOTAL: nat := 2000000
  const WRITE_SIZE: nat := 1040

  /** The k-th byte of the stream that the receiver should see. */
  function ByteAt(k: nat): int {
    97 + k % 26
  }

  function Stream(n: nat): (s: seq<int>)
    ensures |s| == n && forall k :: 0 <= k < n ==> s[k] == ByteAt(k)
  {
    seq(n, k requires 0 <= k => ByteAt(k))
  }

  /** What the socket answers in one turn of the write loop: the space it reports to the loop guard
      and to the size computation, and what it takes from the send (negative: refused). */
  datatype Answer = Answer(guardSpace: nat, writeSpace: nat, sent: int)

  /** How a call of the writer went. `Observed` means that the answers ran out inside the loop, so
      every safety statement also covers unfinished and endless calls. */
  datatype Outcome = Closed | Blocked | Refused | Observed

  function Min(a: int, b: int): int {
    if a < b then a else b
  }

  /** The size of the next write after `current` bytes, when the socket reports `space`. */
  function WriteLength(current: nat, space: nat): (n: nat)
    requires current <= TOTAL
    ensures current % WRITE_SIZE + n <= WRITE_SIZE && current + n <= TOTAL && n <= space
    ensures current < TOTAL && space > 0 ==> n > 0
    ensures current % WRITE_SIZE + n == WRITE_SIZE || current + n == TOTAL || n == space
  {
    Min(Min(WRITE_SIZE - current % WRITE_SIZE, TOTAL - current), space)
  }

  /** The bytes accepted after a turn that was not refused. */
  function Next(current: nat, a: Answer): (n: nat)
    requires current <= TOTAL && a.sent >= 0
    ensures current <= n <= TOTAL
    ensures current < TOTAL && a.writeSpace > 0 && a.sent > 0 ==> n > current
  {
    current + Min(a.sent, WriteLength(current, a.writeSpace))
  }

  /** One call of the writer: the number of bytes accepted after it, and how it went. */
  function Write(current: nat, answers: seq<Answer>): (r: (nat, Outcome))
    requires current <= TOTAL
    ensures current <= r.0 <= TOTAL
    ensures r.1 == Closed <==> r.0 == TOTAL
    decreases |answers|
  {
    if current == TOTAL then (current, Closed)
    else if answers == [] then (current, Observed)
    else
      var a := answers[0];
      if a.guardSpace == 0 then (current, Blocked)
      else if a.sent < 0 then (current, Refused)
      else Write(Next(current, a), answers[1..])
  }

  /** The socket has space in every turn and takes at least one byte. */
  predicate Productive(answers: seq<Answer>) {
    forall i :: 0 <= i < |answers| ==>
      answers[i].guardSpace > 0 && answers[i].writeSpace > 0 && answers[i].sent > 0
  }

  /** MAIN: a socket that takes at least a byte per turn gets everything, and is closed, within as many
      turns as there are bytes left. */
  lemma {:induction false} ProductiveCloses(current: nat, answers: seq<Answer>)
    requires current <= TOTAL && Productive(answers) && |answers| >= TOTAL - current
    ensures Write(current, answers) == (TOTAL, Closed)
    decreases |answers|
  {
    if current < TOTAL {
      var a := answers[0];
      ProductiveCloses(Next(current, a), answers[1..]);
    }
  }

  /** A call that runs on without interruption passes its state on to whatever answers follow. */
  lemma {:induction false} WriteConcat(current: nat, before: seq<Answer>, after: seq<Answer>)
    requires current <= TOTAL && Write(current, before).1 == Observed
    ensures Write(current, before + after) == Write(Write(current, before).0, after)
    decreases |before|
  {
    if before == [] {
      assert before + after == after;
    } else {
      assert (before + after)[1..] == before[1..] + after;
      WriteConcat(Next(current, before[0]), before[1..], after);
    }
  }

  /** MAIN: interrupted and resumed writes add up. Blocking or refusing after some answers and then
      calling again accepts what one uninterrupted call would have accepted. */
  lemma ResumeContinues(current: nat, before: seq<Answer>, stop: Answer, after: seq<Answer>)
    requires current <= TOTAL && Write(current, before).1 == Observed
    requires stop.guardSpace == 0 || stop.sent < 0
    ensures var first := Write(current, before + [stop]);
      first.1 == (if stop.guardSpace == 0 then Blocked else Refused) && first.0 < TOTAL &&
      Write(first.0, after) == Write(current, before + after)
  {
    WriteConcat(current, before, [stop]);
    WriteConcat(current, before, after);
  }

  /** The number of bytes accepted after a series of calls. */
  function WriteAll(current: nat, calls: seq<seq<Answer>>): (r: nat)
    requires current <= TOTAL
    ensures r <= TOTAL
  {
    if calls == [] then current
    else Write(WriteAll(current, calls[..|calls| - 1]), calls[|calls| - 1]).0
  }

  /** The number of times the socket is closed in a series of calls. */
  function Closes(current: nat, calls: seq<seq<Answer>>): nat
    requires current <= TOTAL
  {
    if calls == [] then 0
    else
      var n := |calls| - 1;
      Closes(current, calls[..n]) + if WriteAll(current, calls) == TOTAL then 1 else 0
  }

  /** MAIN: the socket has been closed exactly when every byte was accepted; every later call closes
      it again. */
  lemma {:induction false} ClosedIffComplete(current: nat, calls: seq<seq<Answer>>, more: seq<Answer>)
    requires current <= TOTAL && calls != []
    ensures Closes(current, calls) > 0 <==> WriteAll(current, calls) == TOTAL
    ensures WriteAll(current, calls) == TOTAL ==>
      WriteAll(current, calls + [more]) == TOTAL && Closes(current, calls + [more]) == Closes(current, calls) + 1
  {
    var n := |calls| - 1;
    if n > 0 { ClosedIffComplete(current, calls[..n], more); }
    assert (calls + [more])[..n + 1] == calls;
  }

  // ---------------------------------------------------------------------------
  // The writer
  // ---------------------------------------------------------------------------

  /** The buffer repeats the stream, because its size is a multiple of 26. */
  lemma BufferRepeatsStream(current: nat, j: nat)
    requires current % WRITE_SIZE + j < WRITE_SIZE
    ensures ByteAt(current % WRITE_SIZE + j) == ByteAt(current + j)
  {
    var q, r := current / WRITE_SIZE, current % WRITE_SIZE;
    assert current == 1040 * q + r;
    assert current + j == 26 * (40 * q) + (r + j);
  }

  predicate IsBuffer(data: seq<int>) {
    |data| == WRITE_SIZE && forall i :: 0 <= i < WRITE_SIZE ==> data[i] == ByteAt(i)
  }

  /** Appending a piece of the buffer, from the right offset on, continues the stream. */
  lemma StreamGrows(data: seq<int>, current: nat, offset: nat, amount: nat)
    requires IsBuffer(data) && offset == current % WRITE_SIZE && offset + amount <= WRITE_SIZE
    ensures Stream(current) + data[offset..offset + amount] == Stream(current + amount)
  {
    var piece := data[offset..offset + amount];
    forall j | 0 <= j < |piece| ensures piece[j] == ByteAt(current + j) {
      BufferRepeatsStream(current, j);
    }
  }

  /** The stream repeats the alphabet. */
  lemma StreamIsAlphabet(n: nat, k: nat)
    requires k < n
    ensures Stream(n)[k] == "abcdefghijklmnopqrstuvwxyz"[k % 26] as int
  {
    var alphabet := "abcdefghijklmnopqrstuvwxyz";
    assert forall i :: 0 <= i < 26 ==> alphabet[i] as int == 97 + i;
  }

  class Sender {
    const data: array<int>
    var currentTxBytes: nat
    var accepted: seq<int>   // the bytes that the socket has taken, in order
    var closes: nat          // how often it was closed

    /** MAIN: what the socket has taken is exactly the beginning of the stream. */
    ghost predicate Valid()
      reads this, data
    {
      IsBuffer(data[..]) && currentTxBytes <= TOTAL && accepted == Stream(currentTxBytes)
    }

    constructor ()
      ensures Valid() && fresh(data) && currentTxBytes == 0 && closes == 0
    {
      data := new int[WRITE_SIZE];
      currentTxBytes, accepted, closes := 0, [], 0;
      new;
      for i := 0 to WRITE_SIZE
        invariant forall k :: 0 <= k < i ==> data[k] == ByteAt(k)
        invariant currentTxBytes == 0 && accepted == [] && closes == 0
      {
        data[i] := 97 + i % 26;
      }
    }

    /** The socket takes a part of the bytes it is offered, or refuses them. */
    method Send(offset: nat, length: nat, sent: int) returns (amount: int)
      requires offset + length <= data.Length
      modifies `accepted
      ensures amount == Min(sent, length)
      ensures accepted == if amount < 0 then old(accepted) else old(accepted) + data[offset..offset + amount]
    {
      amount := Min(sent, length);
      if amount >= 0 { accepted := accepted + data[offset..offset + amount]; }
    }

    /** The body of the loop; a negative amount ends the call. */
    method WriteOnce(writeSpace: nat, sent: int) returns (amount: int)
      requires Valid() && currentTxBytes < TOTAL
      modifies `currentTxBytes, `accepted
      ensures Valid() && amount == Min(sent, WriteLength(old(currentTxBytes), writeSpace))
      ensures currentTxBytes == old(currentTxBytes) + if amount < 0 then 0 else amount
    {
      var left := TOTAL - currentTxBytes;
      var dataOffset := currentTxBytes % WRITE_SIZE;
      var toWrite := WRITE_SIZE - dataOffset;
      toWrite := Min(toWrite, left);
      toWrite := Min(toWrite, writeSpace);
      assert toWrite == WriteLength(currentTxBytes, writeSpace);
      amount := Send(dataOffset, toWrite, sent);
      if amount < 0 { return; }
      StreamGrows(data[..], currentTxBytes, dataOffset, amount);
      assert data[..][dataOffset..dataOffset + amount] == data[dataOffset..dataOffset + amount];
      currentTxBytes := currentTxBytes + amount;
    }

    method WriteUntilBufferFull(answers: seq<Answer>) returns (outcome: Outcome)
      requires Valid()
      modifies `currentTxBytes, `accepted, `closes
      ensures Valid() && (currentTxBytes, outcome) == Write(old(currentTxBytes), answers)
      ensures closes == old(closes) + if currentTxBytes == TOTAL then 1 else 0
    {
      var i := 0;
      while currentTxBytes < TOTAL
        invariant Valid() && i <= |answers| && closes == old(closes)
        invariant Write(old(currentTxBytes), answers) == Write(currentTxBytes, answers[i..])
        decreases |answers| - i
      {
        if i == |answers| { return Observed; }
        var a := answers[i];
        if a.guardSpace == 0 { break; }
        assert answers[i..][1..] == answers[i + 1..];
        var amountSent := WriteOnce(a.writeSpace, a.sent);
        if amountSent < 0 { return Refused; }
        i := i + 1;
      }
      if currentTxBytes >= TOTAL {
        closes := closes + 1;
        return Closed;
      }
      return Blocked;
    }

    /** The start of the flow and all later callbacks of the socket. */
    method RunCallbacks(calls: seq<seq<Answer>>)
      requires Valid()
      modifies `currentTxBytes, `accepted, `closes
      ensures Valid() && currentTxBytes == WriteAll(old(currentTxBytes), calls)
      ensures closes == old(closes) + Closes(old(currentTxBytes), calls)
      ensures calls != [] ==> (closes > old(closes) <==> |accepted| == 2000000)
    {
      for i := 0 to |calls|
        invariant Valid() && currentTxBytes == WriteAll(old(currentTxBytes), calls[..i])
        invariant closes == old(closes) + Closes(old(currentTxBytes), calls[..i])
      {
        var outcome := WriteUntilBufferFull(calls[i]);
        assert calls[..i + 1][..i] == calls[..i];
      }
      assert calls[..|calls|] == calls;
      if calls != [] { ClosedIffComplete(old(currentTxBytes), calls, []); }
    }
  }
}
