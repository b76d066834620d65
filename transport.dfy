/**
 * The serial port the transaction talks through, reduced to what the
 * transaction uses of it: whether it is open, a write that may fail, a
 * read of at most n bytes, and close.
 */
module Transport {
  import opened ByteCodec

  /**
   * The observable state of a port: whether it is open, whether the link
   * rejects writes (the cable or the JTAG adapter is unplugged), the frames
   * written so far, and the bytes the device has sent that are not read yet.
   */
  datatype Link = Link(isOpen: bool, writeFails: bool, sent: seq<seq<byte>>, rx: seq<byte>)

  /**
   * How many bytes a read of n returns when `avail` bytes arrive before the
   * timeout: at most n, at most what arrived, none for n <= 0.
   */
  function ReadCount(n: int, avail: nat): (k: nat)
    ensures k <= avail
    ensures n <= 0 ==> k == 0
    ensures n > 0 ==> k <= n && (k == n || k == avail)
  {
    if n <= 0 then 0 else if n < avail then n else avail
  }

  class SerialPort {
    var isOpen: bool
    var writeFails: bool
    var sent: seq<seq<byte>>
    var rx: seq<byte>

    ghost function State(): Link
      reads this
    {
      Link(isOpen, writeFails, sent, rx)
    }

    /** An open port over which the device will answer with `rx`. */
    constructor (rx: seq<byte>, writeFails: bool)
      ensures State() == Link(true, writeFails, [], rx)
    {
      this.isOpen := true;
      this.writeFails := writeFails;
      this.sent := [];
      this.rx := rx;
    }

    /** Sends a frame; fails, sending nothing, on a closed port or a broken link. */
    method Write(frame: seq<byte>) returns (ok: bool)
      modifies this
      ensures ok == (old(isOpen) && !old(writeFails))
      ensures State() == old(State()).(sent := if ok then old(sent) + [frame] else old(sent))
    {
      ok := isOpen && !writeFails;
      if ok {
        sent := sent + [frame];
      }
    }

    /** Reads at most n bytes: whatever of them arrived before the timeout. */
    method Read(n: int) returns (data: seq<byte>)
      requires isOpen
      modifies this
      ensures var k := ReadCount(n, |old(rx)|);
        data == old(rx)[..k] && State() == old(State()).(rx := old(rx)[k..])
    {
      var k := ReadCount(n, |rx|);
      data := rx[..k];
      rx := rx[k..];
    }

    method Close()
      modifies this
      ensures State() == old(State()).(isOpen := false)
    {
      isOpen := false;
    }
  }
}
