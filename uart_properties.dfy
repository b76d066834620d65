/**
 * What one `uartCmd` transaction promises, stated over the functions that
 * specify its methods: the error outcomes, the frame that goes out, the
 * value that comes back and is recorded, the expectation defaults, and the
 * scenarios of a read, an acknowledged write, a mismatch and a timeout.
 */
module UartProperties {
  import opened Options
  import opened ByteCodec
  import opened Frame
  import opened Transport
  import opened Uart

  /** `set` with nothing passed only resets the length to 4. */
  lemma SetNothing(s: CmdState)
    ensures SetSpec(s, None, None, None, None, None) == s.(length := 4)
  {
  }

  /**
   * `set` writes the passed fields, keeps the others, leaves the length at 4
   * unless it is passed, and touches none of the transaction's own fields.
   */
  lemma SetFields(s: CmdState, rw: Option<int>, address: Option<int>, length: Option<int>,
                  expected: Option<int>, data: Option<int>)
    ensures var t := SetSpec(s, rw, address, length, expected, data);
      (rw.None? ==> t.rw == s.rw) && (rw.Some? ==> t.rw == rw.value) &&
      (address.None? ==> t.address == s.address) && (address.Some? ==> t.address == address.value) &&
      (length.None? ==> t.length == 4) && (length.Some? ==> t.length == length.value) &&
      (expected.None? ==> t.expected == s.expected) && (expected.Some? ==> t.expected == expected) &&
      (data.None? ==> t.data == s.data) && (data.Some? ==> t.data == data.value) &&
      t.uartIdInv == s.uartIdInv && t.binVal == s.binVal &&
      t.returnLength == s.returnLength && t.received == s.received
  {
  }

  /** Repeating a `set` changes nothing more. */
  lemma SetIdempotent(s: CmdState, rw: Option<int>, address: Option<int>, length: Option<int>,
                      expected: Option<int>, data: Option<int>)
    ensures var t := SetSpec(s, rw, address, length, expected, data);
      SetSpec(t, rw, address, length, expected, data) == t
  {
  }

  /** `pack` always recomputes the check byte 0xCE and the reply length of the flag. */
  lemma PackSetsCheckByte(s: CmdState)
    ensures PackSpec(s).uartIdInv == 0xCE
    ensures PackSpec(s).returnLength == (if s.rw == 0 then s.length else 1)
    ensures PackSpec(s).binVal == (if 0 <= s.rw < 256
                                   then Some(EncodeFrame(s.rw, s.address, s.length, s.data))
                                   else s.binVal)
  {
    CheckByteOfUartId();
  }

  /** A closed port raises before anything is packed, written, read or recorded. */
  lemma ClosedPortRaises(s: CmdState, link: Link, expected: Option<int>)
    requires !link.isOpen
    ensures var st := SendSpec(s, link, expected);
      st.result == Failure(PortNotOpen) && st.link == link &&
      st.state == s.(expected := ExpectationFor(s.rw, expected))
  {
  }

  /**
   * A write that raises (a broken link, or a flag `struct.pack` refuses)
   * closes the port and propagates; nothing is sent, read or recorded.
   */
  lemma FailedWriteClosesPort(s: CmdState, link: Link, expected: Option<int>)
    requires link.isOpen && (link.writeFails || !(0 <= s.rw < 256))
    ensures var st := SendSpec(s, link, expected);
      st.result.Failure? && st.result.error != PortNotOpen &&
      (!(0 <= s.rw < 256) <==> st.result.error == PackError) &&
      st.link == link.(isOpen := false) &&
      st.state.received == s.received
  {
  }

  /**
   * On an open port whose write succeeds the call never raises: exactly the
   * packed frame goes out, at most `return_length` bytes are taken, and the
   * value returned and recorded is None exactly when nothing came back and
   * otherwise the big-endian value of what did.
   */
  lemma ExchangeOutcome(s: CmdState, link: Link, expected: Option<int>)
    requires link.isOpen && !link.writeFails && 0 <= s.rw < 256
    ensures var st := SendSpec(s, link, expected);
      var k := ReadCount(ReturnLength(s.rw, s.length), |link.rx|);
      var reply := link.rx[..k];
      st.result.Success? && st.link.isOpen &&
      st.link.sent == link.sent + [EncodeFrame(s.rw, s.address, s.length, s.data)] &&
      st.link.rx == link.rx[k..] &&
      (s.rw != 0 ==> |reply| <= 1) &&
      (s.rw == 0 ==> |reply| <= (if s.length < 0 then 0 else s.length)) &&
      st.state.received == st.result.value.received &&
      (st.result.value.received.None? <==> reply == []) &&
      (reply != [] ==> st.result.value.received == Some(BigEndian(reply) as int)) &&
      st.result.value.report.readbackFailed == (reply == [])
  {
    var st := SendSpec(s, link, expected);
    var s1 := s.(expected := ExpectationFor(s.rw, expected));
    var s2 := PackSpec(s1);
    assert PackFrame(s1.rw, s1.address, s1.length, s1.data)
        == Some(EncodeFrame(s.rw, s.address, s.length, s.data));
    var k := ReadCount(s2.returnLength, |link.rx|);
    var reply := link.rx[..k];
    assert st.state == s2.(received := ParsedValue(reply));
    assert st.result == Success(Reply(ParsedValue(reply), ReportFor(s1.expected, reply)));
  }

  /**
   * A mismatch is reported exactly when there was an expectation, a value
   * came back and the two differ; it carries both, and the call still returns
   * the value.
   */
  lemma MismatchIsReported(s: CmdState, link: Link, expected: Option<int>)
    requires link.isOpen && !link.writeFails && 0 <= s.rw < 256
    ensures var st := SendSpec(s, link, expected);
      var e := ExpectationFor(s.rw, expected);
      st.result.Success? &&
      var v := st.result.value;
      (v.report.mismatch.Some? <==> e.Some? && v.received.Some? && e.value != v.received.value) &&
      (v.report.mismatch.Some? ==> v.report.mismatch.value == (e.value, v.received.value))
  {
  }

  /** Nothing that came back, nothing compared: a failed readback never reports a mismatch. */
  lemma ReadbackFailureHasNoMismatch(expected: Option<int>)
    ensures ReportFor(expected, []) == Report(None, true)
  {
  }

  /**
   * A read without the keyword `expected` runs with no expectation, so it
   * never reports a mismatch; an omitted length goes out as 4.
   */
  lemma ReadWithoutExpectation(s: CmdState, link: Link, address: Option<int>, length: Option<int>,
                               data: Option<int>)
    ensures var st := ReadSpec(s, link, address, length, Omitted, data);
      st.state.rw == 0 && st.state.expected == None &&
      st.state.length == (if length.Some? then length.value else 4) &&
      (st.result.Success? ==> st.result.value.report.mismatch == None)
  {
  }

  /**
   * A read that passes `expected` explicitly as None keeps the expectation
   * the object had; one that passes a value checks against that value.
   */
  lemma ReadWithExpectationKeyword(s: CmdState, link: Link, address: Option<int>, length: Option<int>,
                                   expected: Option<int>, data: Option<int>)
    ensures var st := ReadSpec(s, link, address, length, Given(expected), data);
      st.state.expected == (if expected.Some? then expected else s.expected)
  {
  }

  /**
   * On a working port, a read that passes `expected` reports a mismatch
   * exactly when a value came back that differs from the value passed, or,
   * when None was passed, from the expectation the object already had.
   */
  lemma ReadChecksAgainstExpectation(s: CmdState, link: Link, address: Option<int>, length: Option<int>,
                                     expected: Option<int>, data: Option<int>)
    requires link.isOpen && !link.writeFails
    ensures var st := ReadSpec(s, link, address, length, Given(expected), data);
      var e := if expected.Some? then expected else s.expected;
      st.result.Success? &&
      var v := st.result.value;
      (v.report.mismatch.Some? <==> e.Some? && v.received.Some? && e.value != v.received.value) &&
      (v.report.mismatch.Some? ==> v.report.mismatch.value == (e.value, v.received.value))
  {
  }

  /**
   * A read on a working port sends the seven-byte read frame and takes at
   * most `length` bytes back.
   */
  lemma ReadSendsReadFrame(s: CmdState, link: Link, address: Option<int>, length: Option<int>,
                           expected: ExpectedArg, data: Option<int>)
    requires link.isOpen && !link.writeFails
    ensures var st := ReadSpec(s, link, address, length, expected, data);
      var t := SetSpec(s, Some(0), address, length, ArgValue(expected), data);
      st.result.Success? &&
      st.link.sent == link.sent + [EncodeFrame(0, t.address, t.length, t.data)] &&
      |st.link.sent[|link.sent|]| == 7 &&
      |link.rx| - |st.link.rx| <= (if t.length < 0 then 0 else t.length)
  {
    var t := SetSpec(s, Some(0), address, length, ArgValue(expected), data);
    var t2 := if expected.Omitted? then t.(expected := None) else t;
    ExchangeOutcome(t2, link, t2.expected);
  }

  /**
   * A write always checks against the ack byte 0x32, whatever `expected` it
   * was given, and packs an eleven-byte frame with flag 1.
   */
  lemma WriteAlwaysExpectsAck(s: CmdState, link: Link, address: Option<int>, length: Option<int>,
                              expected: Option<int>, data: Option<int>)
    ensures var st := WriteSpec(s, link, address, length, expected, data);
      st.state.rw == 1 && st.state.expected == Some(AckByte) &&
      (link.isOpen ==>
         st.state.returnLength == 1 &&
         st.state.binVal == Some(EncodeFrame(1, st.state.address, st.state.length, st.state.data)) &&
         |st.state.binVal.value| == 11)
  {
  }

  /**
   * A write on a working port records at most the one ack byte, and the
   * report finds no mismatch exactly when that byte is 0x32.
   */
  lemma WriteAcknowledgement(s: CmdState, link: Link, address: Option<int>, length: Option<int>,
                             expected: Option<int>, data: Option<int>)
    requires link.isOpen && !link.writeFails && link.rx != []
    ensures var st := WriteSpec(s, link, address, length, expected, data);
      st.result.Success? &&
      st.state.received == Some(link.rx[0]) &&
      st.link.rx == link.rx[1..] &&
      st.result.value.readbackFailed == false &&
      (st.result.value.mismatch == None <==> link.rx[0] == AckByte)
  {
    var t := SetSpec(s, Some(1), address, length, expected, data);
    assert link.rx[..1] == [] + [link.rx[0]];
    BigEndianSnoc([], link.rx[0]);
  }

  /** Reading 0x1000 with the device answering 00 00 00 2A returns 42 and reports nothing. */
  lemma ScenarioRead(s: CmdState)
    ensures var st := ReadSpec(s, Link(true, false, [], [0x00, 0x00, 0x00, 0x2A]),
                               Some(0x1000), None, Omitted, None);
      st.result == Success(Reply(Some(42), Report(None, false))) &&
      st.state.received == Some(42) &&
      st.link.sent == [[0x31, 0xCE, 0x00, 0x10, 0x00, 0x00, 0x04]] && st.link.rx == []
  {
    ReadFrameLayout(0x1000, 4, s.data);
    var reply: seq<byte> := [0x00, 0x00, 0x00, 0x2A];
    assert reply[..4] == reply;
    assert BigEndian(reply) == 42 by {
      var z3: seq<byte> := [0x00, 0x00, 0x00];
      assert reply == Zeros(3) + [0x2A];
      LeadingZeros(3, [0x2A]);
      BigEndianSnoc([], 0x2A);
    }
  }

  /**
   * Writing 0xDEADBEEF to 0x2000 sends 31 CE 01 20 00 00 04 DE AD BE EF and,
   * with the device answering the ack byte, records 0x32 and reports nothing.
   */
  lemma ScenarioWrite(s: CmdState)
    ensures var st := WriteSpec(s, Link(true, false, [], [0x32]),
                                Some(0x2000), None, None, Some(0xDEADBEEF));
      st.result == Success(Report(None, false)) &&
      st.state.received == Some(0x32) &&
      st.link.sent == [[0x31, 0xCE, 0x01, 0x20, 0x00, 0x00, 0x04, 0xDE, 0xAD, 0xBE, 0xEF]]
  {
    WriteFrameLayout(1, 0x2000, 4, 0xDEADBEEF);
    WriteAcknowledgement(s, Link(true, false, [], [0x32]), Some(0x2000), None, None, Some(0xDEADBEEF));
  }

  /** Reading 0x10 expecting 0x10 while the device answers 0x11 reports the pair and still returns 0x11. */
  lemma ScenarioMismatch(s: CmdState)
    ensures var st := ReadSpec(s, Link(true, false, [], [0x00, 0x00, 0x00, 0x11]),
                               Some(0x10), None, Given(Some(0x10)), None);
      st.result == Success(Reply(Some(0x11), Report(Some((0x10, 0x11)), false))) &&
      st.state.received == Some(0x11)
  {
    var reply: seq<byte> := [0x00, 0x00, 0x00, 0x11];
    assert reply[..4] == reply;
    assert BigEndian(reply) == 0x11 by {
      assert reply == Zeros(3) + [0x11];
      LeadingZeros(3, [0x11]);
      BigEndianSnoc([], 0x11);
    }
  }

  /**
   * An object built with the defaults expects 0: a read that passes
   * `expected` as None keeps that expectation, so a reply 00 00 00 01 is
   * reported as a mismatch against 0 and 1 is still returned.
   */
  lemma ScenarioDefaultExpectation(address: int)
    ensures var st := ReadSpec(DefaultState(), Link(true, false, [], [0x00, 0x00, 0x00, 0x01]),
                               Some(address), None, Given(None), None);
      st.state.expected == Some(0) &&
      st.result == Success(Reply(Some(1), Report(Some((0, 1)), false))) &&
      st.state.received == Some(1)
  {
    var reply: seq<byte> := [0x00, 0x00, 0x00, 0x01];
    assert reply[..4] == reply;
    ParseExamples();
  }

  /** A device that stays silent past the timeout: no value, a failed readback, nothing raised. */
  lemma ScenarioTimeout(s: CmdState, address: Option<int>, expected: ExpectedArg)
    ensures var st := ReadSpec(s, Link(true, false, [], []), address, None, expected, None);
      st.result == Success(Reply(None, Report(None, true))) &&
      st.state.received == None
  {
  }

  /** A read on an object built with every default, run on the objects themselves. */
  method DefaultReadOnObjects()
  {
    var port := new SerialPort([0x00, 0x00, 0x00, 0x01], false);
    var cmd := new UartCmd(port);
    assert cmd.State() == DefaultState();
    var r := cmd.Read(Some(0x10), None, Given(None), None);
    ScenarioDefaultExpectation(0x10);
    assert r == Success(Reply(Some(1), Report(Some((0, 1)), false)));
  }

  /** The acknowledged write of 0xDEADBEEF, run on the objects themselves. */
  method WriteOnObjects()
  {
    var port := new SerialPort([0x32], false);
    var cmd := new UartCmd(port, 0, 0, 4, Some(0), 0);
    ghost var before := cmd.State();
    var r := cmd.Write(Some(0x2000), None, None, Some(0xDEADBEEF));
    ScenarioWrite(before);
    assert r == Success(Report(None, false));
    assert cmd.received == Some(0x32) && cmd.expected == Some(AckByte);
    assert port.sent == [[0x31, 0xCE, 0x01, 0x20, 0x00, 0x00, 0x04, 0xDE, 0xAD, 0xBE, 0xEF]];
  }
}
