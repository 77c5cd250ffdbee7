/**
 * The Linux i2c-dev boundary both drivers talk to: `open` of the bus device,
 * `ioctl(fd, I2C_SLAVE, address)`, `write`, `read` and `close`. Each call is
 * one event of a trace; what the kernel answers comes from an oracle indexed
 * by the position of the call in the trace, so every run of a driver is
 * determined by the oracle and the trace so far.
 */
module I2C {

  /** An 8-bit value; `char` is unsigned on the ARM target, so bytes are 0..255. */
  newtype byte = b: int | 0 <= b < 256

  /** One system call on the bus, with the arguments the driver passes. */
  datatype Call =
    | Open(bus: int)                    // open("/dev/i2c-<bus>", O_RDWR)
    | Bind(fd: int, address: int)       // ioctl(fd, I2C_SLAVE, address)
    | Write(fd: int, bytes: seq<byte>)  // write(fd, bytes, |bytes|)
    | Read(fd: int, count: nat)         // read(fd, buffer, count)
    | Close(fd: int)                    // close(fd)

  /**
   * A call with the value it returned. For a read, `data` holds `count`
   * bytes of which the first `ret` (when `ret >= 0`) were transferred.
   */
  datatype Event = Event(call: Call, ret: int, data: seq<byte>)

  /**
   * The hardware and the kernel: the raw answer to the k-th call, and the
   * contents of an n-byte buffer after the k-th call.
   */
  datatype Oracle = Oracle(answer: nat -> int, buffer: (nat, nat) -> seq<byte>)

  /** n zero bytes. */
  function Zeros(n: nat): (z: seq<byte>)
    ensures |z| == n
  {
    if n == 0 then [] else Zeros(n - 1) + [0]
  }

  /** The n-byte buffer after the k-th call: the oracle's bytes when it gives n of them. */
  function BufferAfter(o: Oracle, k: nat, n: nat): (b: seq<byte>)
    ensures |b| == n
    ensures |o.buffer(k, n)| == n ==> b == o.buffer(k, n)
  {
    var b := o.buffer(k, n);
    if |b| == n then b else Zeros(n)
  }

  /** A transfer count as `read`/`write` return it: -1 or 0..n. */
  function TransferCount(raw: int, n: nat): (r: int)
    ensures -1 <= r <= n
    ensures r == -1 <==> raw < 0
    ensures 0 <= raw <= n ==> r == raw
  {
    if raw < 0 then -1 else if raw > n then n else raw
  }

  /** The kernel's answer to `call` made as the k-th call of the trace. */
  function Answer(o: Oracle, k: nat, call: Call): (e: Event)
    ensures e.call == call && e.ret >= -1
    ensures !call.Open? && call.fd < 0 ==> e.ret == -1
    ensures call.Bind? || call.Close? ==> e.ret <= 0
    ensures call.Write? ==> e.ret <= |call.bytes| && e.data == []
    ensures call.Read? ==> e.ret <= call.count && |e.data| == call.count
  {
    match call
    case Open(_) =>
      Event(call, if o.answer(k) < 0 then -1 else o.answer(k), [])
    case Bind(fd, _) =>
      Event(call, if fd < 0 || o.answer(k) < 0 then -1 else 0, [])
    case Write(fd, bytes) =>
      Event(call, if fd < 0 then -1 else TransferCount(o.answer(k), |bytes|), [])
    case Read(fd, count) =>
      Event(call, if fd < 0 then -1 else TransferCount(o.answer(k), count), BufferAfter(o, k, count))
    case Close(fd) =>
      Event(call, if fd < 0 || o.answer(k) < 0 then -1 else 0, [])
  }

  /** True of a trace segment that never closes a handle. */
  predicate NoClose(events: seq<Event>)
  {
    forall i :: 0 <= i < |events| ==> !events[i].call.Close?
  }

  /** Appending one call to a trace that already extends another. */
  lemma AppendOne(a: seq<Event>, b: seq<Event>, x: Event)
    ensures a + b + [x] == a + (b + [x])
  {
  }

  /** Appending calls to a trace that already extends another. */
  lemma AppendAll(a: seq<Event>, b: seq<Event>, c: seq<Event>)
    ensures a + b + c == a + (b + c)
  {
  }

  /** Appending two calls to a trace that already extends another. */
  lemma AppendTwo(a: seq<Event>, b: seq<Event>, x: Event, y: Event)
    ensures a + b + [x] + [y] == a + (b + [x, y])
  {
    assert b + [x] + [y] == b + [x, y];
  }

  /** The bus device node as the process sees it. */
  class Bus {
    const oracle: Oracle
    var trace: seq<Event>

    constructor (oracle: Oracle)
      ensures this.oracle == oracle && trace == []
    {
      this.oracle := oracle;
      trace := [];
    }

    /** Issues one system call; the kernel's answer is appended to the trace. */
    method Perform(call: Call) returns (e: Event)
      modifies this
      ensures e == Answer(oracle, |old(trace)|, call)
      ensures trace == old(trace) + [e]
    {
      e := Answer(oracle, |trace|, call);
      trace := trace + [e];
    }
  }
}
