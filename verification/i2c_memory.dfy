/** The mock I2C device: a growable byte buffer that behaves as an infinite, zero-padded memory. */
module I2cMemory {
  import opened Core
  import opened Bus

  /** A Rust slice never holds more than `isize::MAX` bytes. */
  type Payload = b: seq<U8> | |b| <= 0x7FFF_FFFF_FFFF_FFFF

  datatype I2cOperation = ReadOp(length: U32) | WriteOp(bytes: Payload)

  datatype I2cCall =
    | Read(length: U32)
    | Write(bytes: Payload)
    | WriteRead(write: Payload, readLength: U32)
    | Transaction(operations: seq<I2cOperation>)
  {
    function Operation(): string {
      match this
      case Read(_) => "i2c.read"
      case Write(_) => "i2c.write"
      case WriteRead(_, _) => "i2c.write_read"
      case Transaction(_) => "i2c.transaction"
    }

    /** Requests that a session turns down before it does anything else. */
    predicate Malformed() {
      match this
      case Read(length) => length == 0
      case Write(_) => false
      case WriteRead(_, readLength) => readLength == 0
      case Transaction(operations) => operations == []
    }
  }

  datatype Reply = Bytes(bytes: seq<U8>) | Written | Results(results: seq<seq<U8>>)

  datatype BusAddress = BusAddress(bus: U32, address: U16)

  datatype I2cDevice = I2cDevice(address: Option<BusAddress>, memory: seq<U8>, pointer: Usize)

  // ---------- the specification: an infinite memory ----------

  /** One byte for every address, and the current address. */
  datatype Infinite = Infinite(cells: imap<nat, U8>, pointer: Usize)

  ghost predicate Total(s: Infinite) {
    forall i: nat :: i in s.cells
  }

  /** Address arithmetic on `usize` as in a release build. */
  function WrappingAdd(a: Usize, b: nat): Usize {
    (a + b) % (USIZE_MAX + 1)
  }

  /** Reading returns the bytes from the current address on and moves past them. */
  ghost function InfiniteRead(s: Infinite, length: nat): (seq<U8>, Infinite)
    requires Total(s)
  {
    (seq(length, k requires 0 <= k < length => s.cells[WrappingAdd(s.pointer, k)]),
     s.(pointer := SaturatingAdd(s.pointer, length)))
  }

  /** The first byte selects the address; the rest is stored from there on. */
  ghost function InfiniteWrite(s: Infinite, bytes: Payload, errorId: DeviceId): (r: (BusResult<Unit>, Infinite))
    requires Total(s)
    ensures Total(r.1)
  {
    if bytes == [] then (Err(InvalidRequest(errorId, "i2c.write")), s) else
      var end := bytes[0] + |bytes| - 1;
      (Ok(Unit),
       Infinite(imap i: nat :: if bytes[0] <= i < end then bytes[1 + i - bytes[0]] else s.cells[i], end))
  }

  ghost function InfiniteOperation(s: Infinite, operation: I2cOperation, errorId: DeviceId)
    : (r: (BusResult<seq<U8>>, Infinite))
    requires Total(s)
    ensures Total(r.1)
  {
    match operation
    case ReadOp(length) =>
      var (bytes, after) := InfiniteRead(s, length);
      (Ok(bytes), after)
    case WriteOp(bytes) =>
      var (r, after) := InfiniteWrite(s, bytes, errorId);
      (if r.Ok? then Ok([]) else Err(r.error), after)
  }

  /** Operations in order; the first failing one stops the transaction but undoes nothing. */
  ghost function InfiniteTransaction(s: Infinite, operations: seq<I2cOperation>, errorId: DeviceId)
    : (r: (BusResult<seq<seq<U8>>>, Infinite))
    requires Total(s)
    ensures Total(r.1)
  {
    if operations == [] then (Ok([]), s) else
      var n := |operations| - 1;
      var (earlier, middle) := InfiniteTransaction(s, operations[..n], errorId);
      if earlier.Err? then (earlier, middle) else
        var (last, after) := InfiniteOperation(middle, operations[n], errorId);
        (if last.Ok? then Ok(earlier.value + [last.value]) else Err(last.error), after)
  }

  /** A call on the infinite memory. A write-read is a write, a return to the written address, and a read. */
  ghost function InfiniteCall(s: Infinite, call: I2cCall, errorId: DeviceId): (r: (BusResult<Reply>, Infinite))
    requires Total(s)
    ensures Total(r.1)
  {
    if call.Malformed() then (Err(InvalidRequest(errorId, call.Operation())), s) else
      match call
      case Read(length) =>
        var (bytes, after) := InfiniteRead(s, length);
        (Ok(Bytes(bytes)), after)
      case Write(bytes) =>
        var (r, after) := InfiniteWrite(s, bytes, errorId);
        (if r.Ok? then Ok(Written) else Err(r.error), after)
      case WriteRead(write, readLength) =>
        var (r, stored) := InfiniteWrite(s, write, errorId);
        if r.Err? then (Err(r.error), stored) else
          var (bytes, after) := InfiniteRead(stored.(pointer := write[0]), readLength);
          (Ok(Bytes(bytes)), after)
      case Transaction(operations) =>
        var (r, after) := InfiniteTransaction(s, operations, errorId);
        (if r.Ok? then Ok(Results(r.value)) else Err(r.error), after)
  }

  // ---------- the implementation: a growable buffer ----------

  function Cell(memory: seq<U8>, i: nat): U8 {
    if i < |memory| then memory[i] else 0
  }

  /** The infinite memory that a buffer stands for. */
  ghost function Meaning(d: I2cDevice): (s: Infinite)
    ensures Total(s)
  {
    Infinite(imap i: nat :: Cell(d.memory, i), d.pointer)
  }

  lemma PaddingKeepsCells(memory: seq<U8>, zeros: nat)
    ensures forall i: nat :: Cell(memory + seq(zeros, _ => 0), i) == Cell(memory, i)
  {
  }

  lemma OverwrittenCells(memory: seq<U8>, offset: nat, stored: seq<U8>)
    requires offset + |stored| <= |memory|
    ensures var after := memory[..offset] + stored + memory[offset + |stored|..];
      forall i: nat :: Cell(after, i) == if offset <= i < offset + |stored| then stored[i - offset] else Cell(memory, i)
  {
  }

  method ReadFromState(device: I2cDevice, length: U32) returns (bytes: seq<U8>, after: I2cDevice)
    ensures after.address == device.address
    ensures (bytes, Meaning(after)) == InfiniteRead(Meaning(device), length)
  {
    var start := device.pointer;
    bytes := [];
    for index := 0 to length
      invariant |bytes| == index
      invariant forall k :: 0 <= k < index ==> bytes[k] == Meaning(device).cells[WrappingAdd(start, k)]
    {
      var at := WrappingAdd(start, index);
      bytes := bytes + [Cell(device.memory, at)];
    }
    after := device.(pointer := SaturatingAdd(start, length));
    assert bytes == InfiniteRead(Meaning(device), length).0;
  }

  /** Overwriting a buffer that is long enough is a write to the infinite memory. */
  lemma StoredMeaning(device: I2cDevice, bytes: Payload, grown: seq<U8>, errorId: DeviceId)
    requires bytes != [] && bytes[0] + |bytes| - 1 <= |grown|
    requires forall i: nat :: Cell(grown, i) == Cell(device.memory, i)
    ensures var end := bytes[0] + |bytes| - 1;
      Meaning(device.(memory := grown[..bytes[0]] + bytes[1..] + grown[end..], pointer := end))
        == InfiniteWrite(Meaning(device), bytes, errorId).1
  {
    var end := bytes[0] + |bytes| - 1;
    var stored := grown[..bytes[0]] + bytes[1..] + grown[end..];
    var expected := InfiniteWrite(Meaning(device), bytes, errorId).1;
    OverwrittenCells(grown, bytes[0], bytes[1..]);
    assert forall i: nat :: Cell(stored, i) == expected.cells[i];
    assert Meaning(device.(memory := stored, pointer := end)).cells == expected.cells;
  }

  lemma SelectedMeaning(device: I2cDevice, bytes: Payload, errorId: DeviceId)
    requires |bytes| == 1
    ensures Meaning(device.(pointer := bytes[0])) == InfiniteWrite(Meaning(device), bytes, errorId).1
  {
    assert Meaning(device).cells == InfiniteWrite(Meaning(device), bytes, errorId).1.cells;
  }

  method WriteToState(device: I2cDevice, bytes: Payload, errorId: DeviceId)
    returns (r: BusResult<Unit>, after: I2cDevice)
    ensures after.address == device.address
    ensures (r, Meaning(after)) == InfiniteWrite(Meaning(device), bytes, errorId)
  {
    after := device;
    if bytes == [] {
      return Err(InvalidRequest(errorId, "i2c.write")), after;
    }
    var offset := bytes[0];
    after := after.(pointer := offset);
    if |bytes| > 1 {
      var requiredLen := offset + |bytes| - 1;
      var memory := after.memory;
      if |memory| < requiredLen {
        PaddingKeepsCells(memory, requiredLen - |memory|);
        memory := memory + seq(requiredLen - |memory|, _ => 0);
      }
      StoredMeaning(device, bytes, memory, errorId);
      memory := memory[..offset] + bytes[1..] + memory[requiredLen..];
      after := after.(memory := memory, pointer := requiredLen);
    } else {
      SelectedMeaning(device, bytes, errorId);
    }
    r := Ok(Unit);
  }

  method WriteReadOnState(device: I2cDevice, write: Payload, readLength: U32, errorId: DeviceId)
    returns (r: BusResult<Reply>, after: I2cDevice)
    requires readLength > 0
    ensures after.address == device.address
    ensures (r, Meaning(after)) == InfiniteCall(Meaning(device), WriteRead(write, readLength), errorId)
  {
    if |write| == 1 {
      after := device.(pointer := write[0]);
      assert Meaning(after).cells == InfiniteWrite(Meaning(device), write, errorId).1.cells;
    } else {
      var written;
      written, after := WriteToState(device, write, errorId);
      if written.Err? {
        return Err(written.error), after;
      }
      after := after.(pointer := write[0]);
      assert Meaning(after).cells == InfiniteWrite(Meaning(device), write, errorId).1.cells;
    }
    var bytes;
    bytes, after := ReadFromState(after, readLength);
    r := Ok(Bytes(bytes));
  }

  method TransactionOnState(device: I2cDevice, operations: seq<I2cOperation>, errorId: DeviceId)
    returns (r: BusResult<seq<seq<U8>>>, after: I2cDevice)
    ensures after.address == device.address
    ensures (r, Meaning(after)) == InfiniteTransaction(Meaning(device), operations, errorId)
  {
    var results: seq<seq<U8>> := [];
    after := device;
    for i := 0 to |operations|
      invariant after.address == device.address
      invariant InfiniteTransaction(Meaning(device), operations[..i], errorId) == (Ok(results), Meaning(after))
    {
      assert operations[..i + 1][..i] == operations[..i];
      match operations[i] {
        case ReadOp(length) =>
          var bytes;
          bytes, after := ReadFromState(after, length);
          results := results + [bytes];
        case WriteOp(bytes) =>
          var written;
          written, after := WriteToState(after, bytes, errorId);
          if written.Err? {
            TransactionStopsAtError(Meaning(device), operations, i + 1, errorId);
            return Err(written.error), after;
          }
          results := results + [[]];
      }
    }
    assert operations[..|operations|] == operations;
    r := Ok(results);
  }

  lemma {:induction false} TransactionStopsAtError(
      s: Infinite, operations: seq<I2cOperation>, k: nat, errorId: DeviceId)
    requires Total(s) && k <= |operations|
    requires InfiniteTransaction(s, operations[..k], errorId).0.Err?
    ensures InfiniteTransaction(s, operations, errorId) == InfiniteTransaction(s, operations[..k], errorId)
    decreases |operations|
  {
    if k < |operations| {
      var front := operations[..|operations| - 1];
      assert front[..k] == operations[..k];
      TransactionStopsAtError(s, front, k, errorId);
    } else {
      assert operations[..k] == operations;
    }
  }

  /** A transaction of `first + second` is the transaction of `first` followed, if that one succeeds, by
      the transaction of `second` on what it left behind. */
  lemma {:induction false} TransactionSplits(
      s: Infinite, first: seq<I2cOperation>, second: seq<I2cOperation>, errorId: DeviceId)
    requires Total(s)
    ensures
      var (r1, middle) := InfiniteTransaction(s, first, errorId);
      var (r2, after) := InfiniteTransaction(middle, second, errorId);
      InfiniteTransaction(s, first + second, errorId)
        == if r1.Err? then (r1, middle)
           else (if r2.Ok? then Ok(r1.value + r2.value) else r2, after)
    decreases |second|
  {
    var (r1, middle) := InfiniteTransaction(s, first, errorId);
    if second == [] {
      assert first + second == first;
      assert r1.Ok? ==> r1.value + [] == r1.value;
    } else {
      var n := |second| - 1;
      assert (first + second)[..|first| + n] == first + second[..n];
      TransactionSplits(s, first, second[..n], errorId);
      if r1.Ok? {
        var (r2, _) := InfiniteTransaction(middle, second[..n], errorId);
        if r2.Ok? {
          var last := InfiniteOperation(InfiniteTransaction(middle, second[..n], errorId).1, second[n], errorId).0;
          assert last.Ok? ==> r1.value + r2.value + [last.value] == r1.value + (r2.value + [last.value]);
        }
      }
    }
  }

  /** The id under which errors are reported changes nothing else about a call. */
  lemma CallIgnoresErrorId(s: Infinite, call: I2cCall, id: DeviceId, otherId: DeviceId)
    requires Total(s)
    ensures
      var (r, after) := InfiniteCall(s, call, id);
      var (q, otherAfter) := InfiniteCall(s, call, otherId);
      after == otherAfter
      && (if r.Ok? then q == r
          else
            && r.error.InvalidRequest? && r.error.deviceId == id
            && q == Err(InvalidRequest(otherId, r.error.operation)))
  {
    if call.Transaction? { TransactionIgnoresErrorId(s, call.operations, id, otherId); }
  }

  lemma {:induction false} TransactionIgnoresErrorId(
      s: Infinite, operations: seq<I2cOperation>, id: DeviceId, otherId: DeviceId)
    requires Total(s)
    ensures
      var (r, after) := InfiniteTransaction(s, operations, id);
      var (q, otherAfter) := InfiniteTransaction(s, operations, otherId);
      after == otherAfter
      && (if r.Ok? then q == r
          else r.error == InvalidRequest(id, "i2c.write") && q == Err(InvalidRequest(otherId, "i2c.write")))
    decreases |operations|
  {
    if operations != [] {
      TransactionIgnoresErrorId(s, operations[..|operations| - 1], id, otherId);
    }
  }

  // ---------- what the infinite memory promises ----------

  /** After a write the bytes stand from the address selected on, every other cell is as before, and the address is
      just past them. */
  lemma WriteStores(s: Infinite, bytes: Payload, errorId: DeviceId)
    requires Total(s) && bytes != []
    ensures var (r, after) := InfiniteCall(s, Write(bytes), errorId);
      && r == Ok(Written) && after.pointer == bytes[0] + (|bytes| - 1)
      && (forall i :: 1 <= i < |bytes| ==> after.cells[bytes[0] + i - 1] == bytes[i])
      && (forall a: nat :: a < bytes[0] || bytes[0] + (|bytes| - 1) <= a ==> after.cells[a] == s.cells[a])
  {
    var after := InfiniteCall(s, Write(bytes), errorId).1;
    forall i | 1 <= i < |bytes| ensures after.cells[bytes[0] + i - 1] == bytes[i] {
      assert 1 + (bytes[0] + i - 1) - bytes[0] == i;
    }
  }

  /** What a write stores reads back from the address written to, followed by what was there before. */
  lemma WrittenReadsBack(s: Infinite, write: Payload, readLength: U32, errorId: DeviceId)
    requires Total(s) && write != [] && readLength > 0
    ensures var (r, after) := InfiniteCall(s, WriteRead(write, readLength), errorId);
      && r.Ok? && r.value.Bytes? && |r.value.bytes| == readLength
      && (forall k :: 0 <= k < readLength ==>
            r.value.bytes[k] == if k < |write| - 1 then write[1 + k] else s.cells[write[0] + k])
      && after == InfiniteCall(s, Write(write), errorId).1.(pointer := write[0] + readLength)
  {
    var r := InfiniteCall(s, WriteRead(write, readLength), errorId).0;
    forall k | 0 <= k < readLength
      ensures r.value.bytes[k] == if k < |write| - 1 then write[1 + k] else s.cells[write[0] + k]
    {
      assert WrappingAdd(write[0], k) == write[0] + k;
      assert 1 + (write[0] + k) - write[0] == 1 + k;
    }
  }

  /** Reading twice is reading once as far, unless the address has run into its greatest value in between. */
  lemma ReadsCompose(s: Infinite, first: U32, second: U32, errorId: DeviceId)
    requires Total(s) && 0 < first && 0 < second && first + second < 0x1_0000_0000
    requires s.pointer + first <= USIZE_MAX
    ensures
      var (r, middle) := InfiniteCall(s, Read(first), errorId);
      var (q, after) := InfiniteCall(middle, Read(second), errorId);
      && r.Ok? && q.Ok? && r.value.Bytes? && q.value.Bytes?
      && InfiniteCall(s, Read(first + second), errorId) == (Ok(Bytes(r.value.bytes + q.value.bytes)), after)
      && after.cells == s.cells
  {
    var (r, middle) := InfiniteCall(s, Read(first), errorId);
    var (q, after) := InfiniteCall(middle, Read(second), errorId);
    var whole := InfiniteCall(s, Read(first + second), errorId).0.value.bytes;
    forall k | 0 <= k < second ensures whole[first + k] == q.value.bytes[k] {
      assert (s.pointer + first) + k == s.pointer + (first + k);
    }
    assert whole == r.value.bytes + q.value.bytes;
  }

  /** A transaction of one operation is the call of that operation. */
  lemma OneOperation(s: Infinite, operation: I2cOperation, errorId: DeviceId)
    requires Total(s) && (operation.ReadOp? ==> operation.length > 0)
    ensures
      var (r, after) := InfiniteCall(s, Transaction([operation]), errorId);
      match operation
      case ReadOp(length) =>
        var (q, same) := InfiniteCall(s, Read(length), errorId);
        q.Ok? && q.value.Bytes? && r == Ok(Results([q.value.bytes])) && after == same
      case WriteOp(bytes) =>
        var (q, same) := InfiniteCall(s, Write(bytes), errorId);
        r == (if q.Ok? then Ok(Results([[]])) else Err(q.error)) && after == same
  {
    assert [operation][..0] == [];
    assert InfiniteTransaction(s, [operation][..0], errorId) == (Ok([]), s);
    var last := InfiniteOperation(s, operation, errorId).0;
    if last.Ok? { assert [] + [last.value] == [last.value]; }
  }

  /** Whether a call fails does not depend on the memory: exactly if it asks for nothing, or if it writes nothing,
      alone or as an operation of a transaction. */
  lemma FailsIff(s: Infinite, call: I2cCall, errorId: DeviceId)
    requires Total(s)
    ensures InfiniteCall(s, call, errorId).0.Err? <==>
      match call
      case Read(length) => length == 0
      case Write(bytes) => bytes == []
      case WriteRead(write, readLength) => readLength == 0 || write == []
      case Transaction(operations) => operations == [] || WriteOp([]) in operations
    ensures !call.Transaction? && InfiniteCall(s, call, errorId).0.Err? ==> InfiniteCall(s, call, errorId).1 == s
  {
    if call.Transaction? { TransactionFailsIff(s, call.operations, errorId); }
  }

  lemma {:induction false} TransactionFailsIff(s: Infinite, operations: seq<I2cOperation>, errorId: DeviceId)
    requires Total(s)
    ensures InfiniteTransaction(s, operations, errorId).0.Err? <==> WriteOp([]) in operations
    decreases |operations|
  {
    if operations != [] {
      var n := |operations| - 1;
      TransactionFailsIff(s, operations[..n], errorId);
      assert operations == operations[..n] + [operations[n]];
    }
  }
}
