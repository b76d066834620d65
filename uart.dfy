/**
 * The register-access transaction of uartserial.py: the `uartCmd` object
 * whose methods merge keyword updates into its fields (`set`), lay out the
 * request frame (`pack`, `tx`), and run one request/response exchange over the
 * serial port (`send_command`, `read`, `write`).
 *
 * Each method of the class is specified by a pure function of the object's
 * fields and the port's state; the lemmas at the end state what the
 * transaction promises in terms of those functions.
 */
module Uart {
  import opened Options
  import opened ByteCodec
  import opened Frame
  import opened Transport

  /** The reply byte with which the device acknowledges a write. */
  const AckByte: int := 0x32

  /** Why a transaction raised instead of returning. */
  datatype Error =
    | PortNotOpen  // the port was closed before anything was sent
    | PackError    // `struct.pack` refused a flag outside 0..255; the port is closed
    | WriteError   // the port's write raised; the port is closed

  /**
   * What `send_command` reports on the console about the reply: the pair
   * (expected, received) when they differ, and whether nothing came back.
   */
  datatype Report = Report(mismatch: Option<(int, int)>, readbackFailed: bool)

  /** The value `send_command` returns, with its report beside it. */
  datatype Reply = Reply(received: Option<int>, report: Report)

  /** The fields of a `uartCmd` object that its methods read and write. */
  datatype CmdState = CmdState(
    rw: int, address: int, length: int, expected: Option<int>, data: int,
    uartIdInv: int, binVal: Option<seq<byte>>, returnLength: int, received: Option<int>)

  /** The keyword `expected` of `read`: left out, or passed (None included). */
  datatype ExpectedArg = Omitted | Given(value: Option<int>)

  /** The object's fields and the port's state after a call, and what the call returned or raised. */
  datatype Step<T> = Step(state: CmdState, link: Link, result: Result<T, Error>)

  /** The fields of a new object built with every default of `__init__`. */
  function DefaultState(): CmdState
  {
    CmdState(0, 0, 4, Some(0), 0, CheckByte(UartId), None, 0, None)
  }

  /** The value an `expected` keyword hands on to `set`. */
  function ArgValue(e: ExpectedArg): Option<int>
  {
    match e
    case Omitted => None
    case Given(v) => v
  }

  /** `set`: every field passed as non-None is overwritten; `length` falls back to 4. */
  function SetSpec(s: CmdState, rw: Option<int>, address: Option<int>, length: Option<int>,
                   expected: Option<int>, data: Option<int>): CmdState
  {
    s.(rw := if rw.Some? then rw.value else s.rw,
       address := if address.Some? then address.value else s.address,
       length := if length.Some? then length.value else 4,
       expected := if expected.Some? then expected else s.expected,
       data := if data.Some? then data.value else s.data)
  }

  /**
   * `pack`: recomputes the check byte and `return_length`, then stores the
   * frame in `bin_val`; when the flag does not fit a byte, `struct.pack`
   * raises after `return_length` is set and `bin_val` keeps its old value.
   */
  function PackSpec(s: CmdState): CmdState
  {
    var frame := PackFrame(s.rw, s.address, s.length, s.data);
    s.(uartIdInv := CheckByte(UartId),
       returnLength := ReturnLength(s.rw, s.length),
       binVal := if frame.Some? then frame else s.binVal)
  }

  /** The expectation `send_command` checks against: the ack byte for writes that name none. */
  function ExpectationFor(rw: int, expected: Option<int>): Option<int>
  {
    if rw == 1 && expected.None? then Some(AckByte) else expected
  }

  /** The report on a reply: a mismatch only when something came back and differs. */
  function ReportFor(expected: Option<int>, reply: seq<byte>): Report
  {
    var mismatch :=
      if expected.Some? && |reply| != 0 && expected.value != BigEndian(reply)
      then Some((expected.value, BigEndian(reply) as int))
      else None;
    Report(mismatch, |reply| == 0)
  }

  /**
   * `send_command(expected)`: set the expectation, refuse a closed port,
   * pack and write the frame (closing the port if that raises), read up to
   * `return_length` bytes, decode them and record the value.
   */
  function SendSpec(s: CmdState, link: Link, expected: Option<int>): Step<Reply>
  {
    var s1 := s.(expected := ExpectationFor(s.rw, expected));
    if !link.isOpen then
      Step(s1, link, Failure(PortNotOpen))
    else
      var s2 := PackSpec(s1);
      var frame := PackFrame(s1.rw, s1.address, s1.length, s1.data);
      if frame.None? then
        Step(s2, link.(isOpen := false), Failure(PackError))
      else if link.writeFails then
        Step(s2, link.(isOpen := false), Failure(WriteError))
      else
        var k := ReadCount(s2.returnLength, |link.rx|);
        var reply := link.rx[..k];
        var received: Option<int> := ParsedValue(reply);
        Step(s2.(received := received),
             link.(sent := link.sent + [frame.value], rx := link.rx[k..]),
             Success(Reply(received, ReportFor(s1.expected, reply))))
  }

  /**
   * `read(**kwargs)`: force a read flag, merge the keywords, drop the
   * expectation unless the keyword `expected` was passed, and run the
   * transaction with the resulting expectation.
   */
  function ReadSpec(s: CmdState, link: Link, address: Option<int>, length: Option<int>,
                    expected: ExpectedArg, data: Option<int>): Step<Reply>
  {
    var s1 := SetSpec(s, Some(0), address, length, ArgValue(expected), data);
    var s2 := if expected.Omitted? then s1.(expected := None) else s1;
    SendSpec(s2, link, s2.expected)
  }

  /**
   * `write(**kwargs)`: force a write flag, merge the keywords and run the
   * transaction with no expectation; the received value is dropped, only the
   * report on it remains.
   */
  function WriteSpec(s: CmdState, link: Link, address: Option<int>, length: Option<int>,
                     expected: Option<int>, data: Option<int>): Step<Report>
  {
    var st := SendSpec(SetSpec(s, Some(1), address, length, expected, data), link, None);
    Step(st.state, st.link,
         if st.result.Success? then Success(st.result.value.report) else Failure(st.result.error))
  }

  class UartCmd {
    const port: SerialPort
    var rw: int
    var address: int
    var length: int
    var expected: Option<int>
    var data: int
    var uartIdInv: int
    var binVal: Option<seq<byte>>
    var returnLength: int
    var received: Option<int>

    ghost function State(): CmdState
      reads this
    {
      CmdState(rw, address, length, expected, data, uartIdInv, binVal, returnLength, received)
    }

    /**
     * A command object on an open port, with nothing packed or received yet;
     * by default a read of register 0 with length 4, expecting 0.
     */
    constructor (port: SerialPort, rw: int := 0, address: int := 0, length: int := 4,
                 expected: Option<int> := Some(0), data: int := 0)
      requires port.isOpen
      ensures this.port == port
      ensures State() == CmdState(rw, address, length, expected, data, CheckByte(UartId), None, 0, None)
    {
      this.port := port;
      this.uartIdInv := CheckByte(UartId);
      this.rw := rw;
      this.address := address;
      this.length := length;
      this.expected := expected;
      this.data := data;
      this.binVal := None;
      this.returnLength := 0;
      this.received := None;
    }

    method Set(rw: Option<int>, address: Option<int>, length: Option<int>,
               expected: Option<int>, data: Option<int>)
      modifies this
      ensures State() == SetSpec(old(State()), rw, address, length, expected, data)
    {
      if rw.Some? {
        this.rw := rw.value;
      }
      if address.Some? {
        this.address := address.value;
      }
      if length.Some? {
        this.length := length.value;
      } else {
        this.length := 4;
      }
      if expected.Some? {
        this.expected := expected;
      }
      if data.Some? {
        this.data := data.value;
      }
    }

    /** Lays out the frame; ok is false where `struct.pack` would raise. */
    method Pack() returns (ok: bool)
      modifies this
      ensures State() == PackSpec(old(State()))
      ensures ok == PackFrame(old(rw), old(address), old(length), old(data)).Some?
    {
      uartIdInv := CheckByte(UartId);
      if rw == 0 {
        returnLength := length;
        binVal := Some(EncodeFrame(0, address, length, data));
        ok := true;
      } else {
        returnLength := 1;
        ok := 0 <= rw < 256;
        if ok {
          binVal := Some(EncodeFrame(rw, address, length, data));
        }
      }
    }

    /** Packs and hands back the frame, or None where packing raises. */
    method Tx() returns (frame: Option<seq<byte>>)
      modifies this
      ensures State() == PackSpec(old(State()))
      ensures frame == PackFrame(old(rw), old(address), old(length), old(data))
    {
      var ok := Pack();
      if ok {
        frame := binVal;
      } else {
        frame := None;
      }
    }

    method SendCommand(expected: Option<int>) returns (r: Result<Reply, Error>)
      modifies this, port
      ensures Step(State(), port.State(), r) == SendSpec(old(State()), old(port.State()), expected)
    {
      ghost var s0, link := State(), port.State();
      this.expected := expected;
      if rw == 1 && this.expected.None? {
        this.expected := Some(AckByte);
      }
      ghost var s1 := State();
      assert s1 == s0.(expected := ExpectationFor(s0.rw, expected));
      if !port.isOpen {
        return Failure(PortNotOpen);
      }
      var frame := Tx();
      assert State() == PackSpec(s1);
      if frame.None? {
        port.Close();
        return Failure(PackError);
      }
      var ok := port.Write(frame.value);
      if !ok {
        port.Close();
        return Failure(WriteError);
      }
      assert port.State() == link.(sent := link.sent + [frame.value]);
      var x := port.Read(returnLength);
      ghost var k := ReadCount(PackSpec(s1).returnLength, |link.rx|);
      assert x == link.rx[..k] && port.State() == link.(sent := link.sent + [frame.value], rx := link.rx[k..]);
      var value: Option<int> := None;
      if |x| != 0 {
        var parsed := Bytes2Int(x);
        value := parsed;
      }
      assert value == ParsedValue(x);
      var mismatch: Option<(int, int)> := None;
      if this.expected.Some? && |x| != 0 && this.expected.value != value.value {
        mismatch := Some((this.expected.value, value.value));
      }
      assert Report(mismatch, |x| == 0) == ReportFor(s1.expected, x);
      this.received := value;
      return Success(Reply(value, Report(mismatch, |x| == 0)));
    }

    method Read(address: Option<int>, length: Option<int>, expected: ExpectedArg, data: Option<int>)
      returns (r: Result<Reply, Error>)
      modifies this, port
      ensures Step(State(), port.State(), r)
           == ReadSpec(old(State()), old(port.State()), address, length, expected, data)
    {
      Set(Some(0), address, length, ArgValue(expected), data);
      if expected.Omitted? {
        this.expected := None;
      }
      r := SendCommand(this.expected);
    }

    method Write(address: Option<int>, length: Option<int>, expected: Option<int>, data: Option<int>)
      returns (r: Result<Report, Error>)
      modifies this, port
      ensures Step(State(), port.State(), r)
           == WriteSpec(old(State()), old(port.State()), address, length, expected, data)
    {
      Set(Some(1), address, length, expected, data);
      var x := SendCommand(None);
      if x.Success? {
        r := Success(x.value.report);
      } else {
        r := Failure(x.error);
      }
    }
  }
}
