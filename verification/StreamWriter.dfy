/** The sending application of tcp-large-transfer: a writer resumed by callbacks that
    must produce one exact periodic stream however the socket takes the bytes. */
module StreamWriter {

  const TOTAL_TX_BYTES: nat := 2000000

  const WRITE_SIZE: nat := 1040

  /** Byte i of the stream the receiver expects. */
  function Letter(i: nat): nat { 97 + i % 26 }

  function Stream(n: nat): (s: seq<nat>)
    ensures |s| == n
    ensures forall i | 0 <= i < n :: s[i] == Letter(i)
  {
    seq(n, (i: nat) => Letter(i))
  }

  function Min(a: int, b: int): int { if a < b then a else b }

  function ToAscii(c: nat): nat { c % 128 }

  /** One answer of the socket: the space it offers, and what Send then returns, a
      count of bytes (no more than it was given) or a negative number. */
  datatype Answer = Answer(available: nat, result: int)

  /** A socket that follows a script. With the script at its end there is no space. */
  class Socket {
    var script: seq<Answer>
    var accepted: seq<nat>
    var closes: nat
    var callbackSet: bool

    constructor ()
      ensures script == [] && accepted == [] && closes == 0 && !callbackSet
    {
      script, accepted, closes, callbackSet := [], [], 0, false;
    }

    function GetTxAvailable(): nat
      reads this
    {
      if script == [] then 0 else script[0].available
    }

    method Send(data: array<nat>, offset: nat, length: nat) returns (amount: int)
      requires 0 < length <= GetTxAvailable() && offset + length <= data.Length
      modifies this
      ensures closes == old(closes) && callbackSet == old(callbackSet)
      ensures script == old(script)[1..]
      ensures amount == Min(old(script)[0].result, length)
      ensures accepted == old(accepted) + if amount < 0 then [] else data[offset..offset + amount]
    {
      amount := Min(script[0].result, length);
      script := script[1..];
      if amount >= 0 {
        accepted := accepted + data[offset..offset + amount];
      }
    }

    method SetSendCallback()
      modifies this`callbackSet
      ensures callbackSet
    {
      callbackSet := true;
    }

    method Close()
      modifies this`closes
      ensures closes == old(closes) + 1
    {
      closes := closes + 1;
    }
  }

  /** A slice of the buffer continues the stream: the buffer's length is a multiple
      of the period, so wrapping round in it does not shift the letters. */
  lemma SliceContinues(data: seq<nat>, n: nat, amount: nat)
    requires data == Stream(WRITE_SIZE)
    requires n % WRITE_SIZE + amount <= WRITE_SIZE
    ensures Stream(n) + data[n % WRITE_SIZE..n % WRITE_SIZE + amount] == Stream(n + amount)
  {
    var sent := data[n % WRITE_SIZE..n % WRITE_SIZE + amount];
    forall j | 0 <= j < amount ensures sent[j] == Letter(n + j) {
      LetterPeriodic(n, j);
    }
    forall i | 0 <= i < n + amount ensures (Stream(n) + sent)[i] == Stream(n + amount)[i] {
      if i >= n {
        assert (Stream(n) + sent)[i] == sent[i - n] == Letter(n + (i - n));
      }
    }
  }

  lemma LetterPeriodic(n: nat, j: nat)
    ensures Letter(n % WRITE_SIZE + j) == Letter(n + j)
  {
    var k := n / 1040;
    assert n == n % 1040 + 26 * (40 * k);
  }

  /** A callback finds room for at least one byte. */
  predicate Productive(script: seq<Answer>) {
    script != [] && script[0].available > 0 && script[0].result > 0
  }

  predicate AllProductive(scripts: seq<seq<Answer>>) {
    forall k | 0 <= k < |scripts| :: Productive(scripts[k])
  }

  /** No answer accepts an empty amount. */
  predicate NoEmptySend(script: seq<Answer>) {
    forall i | 0 <= i < |script| :: script[i].result != 0
  }

  /** What Send takes, or its error, when c bytes are counted and this answer comes: at
      most the rest of the buffer, the rest of the transfer and the space offered. */
  function Taken(c: nat, a: Answer): int {
    Min(a.result, Min(WRITE_SIZE - c % WRITE_SIZE, Min(TOTAL_TX_BYTES - c, a.available)))
  }

  /** The count after a callback that gets these answers. */
  function After(c: nat, script: seq<Answer>): (r: nat)
    requires c <= TOTAL_TX_BYTES
    ensures c <= r <= TOTAL_TX_BYTES
    decreases |script|
  {
    if c == TOTAL_TX_BYTES || script == [] || script[0].available == 0 || Taken(c, script[0]) < 0 then c
    else After(c + Taken(c, script[0]), script[1..])
  }

  /** An answer that offers a whole buffer and takes all it is given. */
  predicate Ample(a: Answer) { a.available >= WRITE_SIZE && a.result >= WRITE_SIZE }

  predicate AllAmple(script: seq<Answer>) { forall i | 0 <= i < |script| :: Ample(script[i]) }

  lemma AmpleTaken(c: nat, a: Answer)
    requires c <= TOTAL_TX_BYTES && Ample(a)
    ensures Taken(c, a) >= 0
    ensures c + Taken(c, a) == TOTAL_TX_BYTES || c + Taken(c, a) == (c / WRITE_SIZE + 1) * WRITE_SIZE
  {
  }

  /** Every ample answer carries the writer to the end of a buffer, so k of them move
      the count from c to at least k buffers on, or to the end. */
  lemma {:induction false} AmpleAfter(c: nat, script: seq<Answer>)
    requires c <= TOTAL_TX_BYTES && AllAmple(script)
    ensures After(c, script) >= Min(TOTAL_TX_BYTES, (c / WRITE_SIZE + |script|) * WRITE_SIZE)
    decreases |script|
  {
    if c < TOTAL_TX_BYTES && script != [] {
      var next := c + Taken(c, script[0]);
      AmpleTaken(c, script[0]);
      AmpleAfter(next, script[1..]);
      assert next != TOTAL_TX_BYTES ==> next / WRITE_SIZE == c / WRITE_SIZE + 1;
    }
  }

  lemma ProductiveAfter(c: nat, script: seq<Answer>)
    requires c < TOTAL_TX_BYTES && Productive(script)
    ensures After(c, script) > c
  {
  }

  /** What a callback achieves: something if its first answer allows it, and a buffer for
      each answer if all are ample. */
  ghost predicate Progress(c: nat, script: seq<Answer>, d: nat) {
    && (Productive(script) && c < TOTAL_TX_BYTES ==> d > c)
    && (AllAmple(script) ==> d >= Min(TOTAL_TX_BYTES, (c / WRITE_SIZE + |script|) * WRITE_SIZE))
  }

  lemma AfterProgress(c: nat, script: seq<Answer>)
    requires c <= TOTAL_TX_BYTES
    ensures Progress(c, script, After(c, script))
  {
    if Productive(script) && c < TOTAL_TX_BYTES {
      ProductiveAfter(c, script);
    }
    if AllAmple(script) {
      AmpleAfter(c, script);
    }
  }

  /** The count after several callbacks. */
  function AfterAll(c: nat, scripts: seq<seq<Answer>>): (r: nat)
    requires c <= TOTAL_TX_BYTES
    ensures c <= r <= TOTAL_TX_BYTES
  {
    if scripts == [] then c else After(AfterAll(c, scripts[..|scripts| - 1]), scripts[|scripts| - 1])
  }

  function Answers(scripts: seq<seq<Answer>>): nat {
    if scripts == [] then 0 else Answers(scripts[..|scripts| - 1]) + |scripts[|scripts| - 1]|
  }

  lemma {:induction false} ProductiveAfterAll(scripts: seq<seq<Answer>>)
    requires AllProductive(scripts)
    ensures AfterAll(0, scripts) >= Min(|scripts|, TOTAL_TX_BYTES)
  {
    if scripts != [] {
      var front, last := scripts[..|scripts| - 1], scripts[|scripts| - 1];
      ProductiveAfterAll(front);
      AfterProgress(AfterAll(0, front), last);
    }
  }

  ghost predicate AllScriptsAmple(scripts: seq<seq<Answer>>) {
    forall k | 0 <= k < |scripts| :: AllAmple(scripts[k])
  }

  lemma {:induction false} AmpleAfterAll(c: nat, scripts: seq<seq<Answer>>)
    requires c <= TOTAL_TX_BYTES && AllScriptsAmple(scripts)
    ensures AfterAll(c, scripts) >= Min(TOTAL_TX_BYTES, (c / WRITE_SIZE + Answers(scripts)) * WRITE_SIZE)
  {
    if scripts != [] {
      var front, last := scripts[..|scripts| - 1], scripts[|scripts| - 1];
      AmpleAfterAll(c, front);
      AmpleAfter(AfterAll(c, front), last);
      MoreBuffers(AfterAll(c, front), c / WRITE_SIZE + Answers(front), |last|, After(AfterAll(c, front), last));
    }
  }

  lemma MoreBuffers(d: nat, n: nat, m: nat, e: nat)
    requires d >= Min(TOTAL_TX_BYTES, n * WRITE_SIZE) && e >= Min(TOTAL_TX_BYTES, (d / WRITE_SIZE + m) * WRITE_SIZE)
    requires e >= d
    ensures e >= Min(TOTAL_TX_BYTES, (n + m) * WRITE_SIZE)
  {
    if d < TOTAL_TX_BYTES {
      assert d / WRITE_SIZE >= n;
    }
  }

  class Writer {
    var currentTxBytes: nat
    const data: array<nat>

    ghost predicate Valid()
      reads this, data
    {
      && currentTxBytes <= TOTAL_TX_BYTES
      && data[..] == Stream(WRITE_SIZE)
    }

    /** The socket holds exactly what this writer counted. */
    ghost predicate InStep(socket: Socket)
      reads this, data, socket
    {
      Valid() && socket.accepted == Stream(currentTxBytes)
    }

    constructor ()
      ensures Valid() && fresh(data) && currentTxBytes == 0
    {
      currentTxBytes := 0;
      data := new nat[WRITE_SIZE];
      new;
      for i := 0 to WRITE_SIZE
        invariant currentTxBytes == 0
        invariant forall k | 0 <= k < i :: data[k] == Letter(k)
      {
        data[i] := ToAscii(97 + i % 26);
      }
    }

    /** One turn of the loop: what Send takes of the next slice extends the stream. */
    method SendNext(socket: Socket) returns (amountSent: int)
      requires InStep(socket) && currentTxBytes < TOTAL_TX_BYTES && socket.GetTxAvailable() > 0
      modifies this`currentTxBytes, socket
      ensures InStep(socket)
      ensures socket.closes == old(socket.closes) && socket.callbackSet == old(socket.callbackSet)
      ensures socket.script == old(socket.script)[1..]
      ensures amountSent == Min(old(socket.script)[0].result,
                                Min(WRITE_SIZE - old(currentTxBytes) % WRITE_SIZE,
                                    Min(TOTAL_TX_BYTES - old(currentTxBytes), old(socket.script)[0].available)))
      ensures currentTxBytes == old(currentTxBytes) + if amountSent < 0 then 0 else amountSent
    {
      var left := TOTAL_TX_BYTES - currentTxBytes;
      var dataOffset := currentTxBytes % WRITE_SIZE;
      var toWrite := WRITE_SIZE - dataOffset;
      toWrite := Min(toWrite, left);
      toWrite := Min(toWrite, socket.GetTxAvailable());
      amountSent := socket.Send(data, dataOffset, toWrite);
      if amountSent >= 0 {
        SliceContinues(data[..], currentTxBytes, amountSent);
        assert data[dataOffset..dataOffset + amountSent] == data[..][dataOffset..dataOffset + amountSent];
        currentTxBytes := currentTxBytes + amountSent;
      }
    }

    /** One callback. The stream goes on exactly where it was; the socket is closed
        if and only if all bytes are in it; otherwise the writer stopped for lack of
        space or because Send failed. */
    method WriteUntilBufferFull(socket: Socket, txSpace: nat) returns (ghost used: nat)
      requires InStep(socket)
      modifies this`currentTxBytes, socket
      ensures InStep(socket)
      ensures used <= |old(socket.script)| && socket.script == old(socket.script)[used..]
      ensures socket.callbackSet == old(socket.callbackSet)
      ensures currentTxBytes == After(old(currentTxBytes), old(socket.script))
      ensures socket.closes == old(socket.closes) + if currentTxBytes == TOTAL_TX_BYTES then 1 else 0
      ensures currentTxBytes < TOTAL_TX_BYTES ==>
                socket.GetTxAvailable() == 0 || (used > 0 && old(socket.script)[used - 1].result < 0)
      ensures Progress(old(currentTxBytes), old(socket.script), currentTxBytes)
      ensures NoEmptySend(old(socket.script)) ==> used <= currentTxBytes - old(currentTxBytes) + 1
    {
      ghost var script, start := socket.script, currentTxBytes;
      AfterProgress(start, script);
      used := 0;
      while currentTxBytes < TOTAL_TX_BYTES && socket.GetTxAvailable() > 0
        invariant InStep(socket)
        invariant start <= currentTxBytes
        invariant socket.closes == old(socket.closes) && socket.callbackSet == old(socket.callbackSet)
        invariant used <= |script| && socket.script == script[used..]
        invariant After(start, script) == After(currentTxBytes, script[used..])
        invariant NoEmptySend(script) ==> used <= currentTxBytes - start
        decreases |script| - used
      {
        assert script[used..][0] == script[used] && script[used..][1..] == script[used + 1..];
        var amountSent := SendNext(socket);
        used := used + 1;
        if amountSent < 0 {
          return;
        }
      }
      if currentTxBytes >= TOTAL_TX_BYTES {
        socket.Close();
      }
    }

    method StartFlow(socket: Socket)
      requires InStep(socket) && currentTxBytes == 0
      modifies this`currentTxBytes, socket
      ensures InStep(socket) && socket.callbackSet
      ensures socket.closes == old(socket.closes) + if currentTxBytes == TOTAL_TX_BYTES then 1 else 0
      ensures currentTxBytes == After(0, old(socket.script))
      ensures Progress(0, old(socket.script), currentTxBytes)
    {
      socket.SetSendCallback();
      ghost var used := WriteUntilBufferFull(socket, socket.GetTxAvailable());
    }
  }

  /** A whole simulation: StartFlow, then one callback for each further script.
      After any number of callbacks what was accepted is a prefix of the one stream,
      closed exactly when complete; enough productive callbacks complete it. */
  method Simulate(first: seq<Answer>, scripts: seq<seq<Answer>>) returns (accepted: seq<nat>, closes: nat)
    ensures |accepted| <= TOTAL_TX_BYTES && accepted == Stream(|accepted|)
    ensures closes > 0 <==> accepted == Stream(TOTAL_TX_BYTES)
    ensures forall i | 0 <= i < |accepted| :: accepted[i] == 97 + i % 26
    ensures |accepted| == AfterAll(0, [first] + scripts)
    ensures AllScriptsAmple([first] + scripts) ==>
              |accepted| >= Min(TOTAL_TX_BYTES, Answers([first] + scripts) * WRITE_SIZE)
    ensures closes <= 1 + |scripts|
    ensures AllProductive([first] + scripts) && 1 + |scripts| >= TOTAL_TX_BYTES ==>
              accepted == Stream(TOTAL_TX_BYTES)
  {
    var socket := new Socket();
    var writer := new Writer();
    socket.script := first;
    assert ([first] + scripts)[0] == first;
    writer.StartFlow(socket);
    assert AfterAll(0, ([first] + scripts)[..1]) == After(0, first) by {
      assert ([first] + scripts)[..1] == [first] && [first][..0] == [];
    }
    for k := 0 to |scripts|
      invariant writer.InStep(socket)
      invariant fresh(socket) && fresh(writer)
      invariant socket.closes <= 1 + k
      invariant socket.closes > 0 <==> writer.currentTxBytes == TOTAL_TX_BYTES
      invariant writer.currentTxBytes == AfterAll(0, ([first] + scripts)[..1 + k])
    {
      AfterNext([first] + scripts, 1 + k);
      assert ([first] + scripts)[1 + k] == scripts[k];
      socket.script := scripts[k];
      ghost var used := writer.WriteUntilBufferFull(socket, socket.GetTxAvailable());
    }
    assert ([first] + scripts)[..1 + |scripts|] == [first] + scripts;
    RunProgress([first] + scripts);
    accepted, closes := socket.accepted, socket.closes;
  }

  lemma RunProgress(scripts: seq<seq<Answer>>)
    ensures AllProductive(scripts) ==> AfterAll(0, scripts) >= Min(|scripts|, TOTAL_TX_BYTES)
    ensures AllScriptsAmple(scripts) ==> AfterAll(0, scripts) >= Min(TOTAL_TX_BYTES, Answers(scripts) * WRITE_SIZE)
  {
    if AllProductive(scripts) {
      ProductiveAfterAll(scripts);
    }
    if AllScriptsAmple(scripts) {
      AmpleAfterAll(0, scripts);
    }
  }

  lemma AfterNext(scripts: seq<seq<Answer>>, k: nat)
    requires k < |scripts|
    ensures AfterAll(0, scripts[..k + 1]) == After(AfterAll(0, scripts[..k]), scripts[k])
  {
    assert scripts[..k + 1][..k] == scripts[..k];
  }
}
