# uartserial register-access protocol, modelled in Dafny

The model covers the host side of a point-to-point register protocol over a
serial link (`uartserial.py`). The host sends one fixed-layout frame to read
or write a register and checks the device's reply against an expected value.

- `ByteCodec` (bytecodec.dfy) is the response parser `bytes2Int`. A method
  with the source's accumulation loop folds `acc = (acc << 8) + b` over the
  reply bytes. It is proved equal to a pure big-endian function, `BigEndian`.
  Lemmas tie that function to the positional sum of base-256 digits, bound it
  below 256^n, and show that leading zero bytes change nothing.
- `Frame` (frame.dfy) is the layout `uartCmd.pack` builds. A frame is device
  ID 0x31, check byte `0x31 ^ 0xff`, the read/write flag, the 16-bit
  address, the 16-bit length and, for any non-zero flag, the 32-bit data
  word, all big-endian. The lemmas give the exact 7- and 11-byte layouts.
  They also show that `bytes2Int` of the frame fields gives back the
  address, the length and the data, modulo 2^16 and 2^32.
- `Transport` (transport.dfy) is the serial port, reduced to what the
  transaction uses: `isOpen`, a `write` that may fail, a `read(n)` that
  returns at most `n` bytes, and `close`. The port is scripted. `writeFails`
  says whether the link rejects writes. `rx` holds the bytes the device sends
  before the timeout, so any short or empty reply is one choice of `rx`.
  `sent` records every frame written.
- `Uart` (uart.dfy) is the class `uartCmd` with its fields and the methods
  `set`, `pack`, `tx`, `send_command`, `read` and `write`. Each method's
  postcondition equates the new fields, the new port state and the result
  with a pure function of the old ones (`SetSpec`, `PackSpec`, `SendSpec`,
  `ReadSpec`, `WriteSpec`).
- `UartProperties` (uart_properties.dfy) proves what a transaction promises
  about those functions. It covers the error outcomes, the frame that goes
  out, the value returned and recorded, the expectation defaults, and the
  scenarios of a read, an acknowledged write, a mismatch and a timeout.

Fields that Python holds as arbitrary integers (`rw`, `address`, `length`,
`data`, `expected`) are `int`. The source's `(x >> 8k) & 0xff` is written
`(x / 256^k) % 256` (`Frame.ByteOf`). For a positive divisor, Dafny's
Euclidean division and remainder agree with Python's floor shift and mask,
so this holds for negative values too. `None` is `Option.None`. Exceptions
are `Result.Failure` with an `Error`: `PortNotOpen`, `PackError` or
`WriteError`. The console report on a reply is returned as data, in a
`Report` of the mismatch pair and the readback-failure flag.

Four behaviours of the code that a caller might not expect are modelled as the
code has them:

- `write(expected=X)` does not check against `X`. `write` calls
  `send_command()` with no argument, which resets the expectation and, for
  `rw == 1`, sets it to the ack byte 0x32 (uartserial.py:107, 113-116). So
  every `write` expects 0x32 (`WriteAlwaysExpectsAck`).
- An `rw` other than 0 and 1 is not refused. Any non-zero flag that fits a
  byte is packed as an 11-byte write frame with that flag in byte 2 and a
  one-byte reply. Only `rw == 1` gets the 0x32 default. A flag outside
  0..255 makes `struct.pack` raise inside the `try` of `send_command`, so
  the port is closed and the error propagates (`PackError`).
- `read(expected=None)`, with the keyword present, keeps the expectation the
  object already had. Only an omitted keyword clears it (uartserial.py:98-99).
  `ExpectedArg` tells the two calls apart.
- `write` returns nothing in the source (line 107). The model's `Write`
  returns the report of the transaction, or the error.

## Model

| member | source | states |
|---|---|---|
| ByteCodec.Bytes2Int | uartserial.py:9-19 | returns None exactly for an empty sequence; otherwise the big-endian value of all bytes, which lies below 256^n |
| ByteCodec.BigEndianBound | uartserial.py:16-19 | n bytes accumulate to a value strictly below 256^n |
| ByteCodec.BigEndianSnoc | uartserial.py:18 | one more byte shifts the value so far up by eight bits and adds the byte |
| ByteCodec.BigEndianCons | uartserial.py:16-19 | a leading byte a contributes a * 256^(n-1) to the value |
| ByteCodec.BigEndianIsPositional | uartserial.py:16-19 | the left fold equals the sum of b[i] * 256^(n-1-i) |
| ByteCodec.LeadingZeros | uartserial.py:16-19 | prepending any number of zero bytes leaves the value unchanged |
| ByteCodec.ParseExamples | uartserial.py:9-19 | [] gives None; 00 00 00 01 gives 1; FF gives 255; 01 00 gives 256 |
| Frame.CheckByteOfUartId | uartserial.py:39-40 | the check byte of 0x31 is 0xCE, and flipping it again gives 0x31 |
| Frame.FieldValue | uartserial.py:79-91 | decoding a k-byte field gives back x modulo 256^k |
| Frame.ReadFrameLayout | uartserial.py:73-81 | a read frame, whatever data the object holds, is exactly 31 CE 00 addr_hi addr_lo len_hi len_lo, and return_length is the length |
| Frame.WriteFrameLayout | uartserial.py:82-92 | a frame with a non-zero byte flag is exactly 11 bytes: the read layout with the flag in byte 2, then the data bytes from most to least significant; return_length is 1 |
| Frame.FrameFields | uartserial.py:71-92 | for any flag, bytes 0-2 are 31 CE rw, and bytes 3-4, 5-6 and (writes) 7-10 decode to address and length mod 2^16 and data mod 2^32 |
| Frame.FrameRoundTrip | uartserial.py:79-91 | for address and length below 2^16 and data below 2^32, `bytes2Int` of the frame fields gives them back exactly |
| Transport.ReadCount | uartserial.py:132 | a read of n bytes returns no more than n and no more than arrived, and none for n <= 0 |
| Transport.SerialPort.Write | uartserial.py:123 | a write succeeds exactly on an open port with a working link, and then the frame is appended to what was sent |
| Transport.SerialPort.Read | uartserial.py:132 | returns the first ReadCount(n) bytes that arrived and consumes them |
| Transport.SerialPort.Close | uartserial.py:125 | the port is closed and nothing else changes |
| Uart.UartCmd.constructor | uartserial.py:26-51 | on an open port, sets the given fields, with the defaults rw 0, address 0, length 4, expected 0 and data 0, plus check byte 0xCE, no frame, return_length 0 and nothing received |
| Uart.UartCmd.Set | uartserial.py:57-69 | the new fields are SetSpec of the old ones |
| Uart.UartCmd.Pack | uartserial.py:71-92 | the new fields are PackSpec of the old ones; it fails exactly when the flag does not fit a byte |
| Uart.UartCmd.Tx | uartserial.py:109-111 | packs and returns the frame, or nothing where packing raises |
| Uart.UartCmd.SendCommand | uartserial.py:113-168 | the new fields, the new port state and the result are SendSpec of the old state and the expectation |
| Uart.UartCmd.Read | uartserial.py:95-102 | the new fields, port state and result are ReadSpec of the old state and the keywords |
| Uart.UartCmd.Write | uartserial.py:104-107 | the new fields, port state and result are WriteSpec of the old state and the keywords |
| UartProperties.SetNothing | uartserial.py:57-69 | a set with no arguments only resets the length to 4 |
| UartProperties.SetFields | uartserial.py:57-69 | set overwrites exactly the fields passed as non-None; length becomes 4 when it is not passed; the transaction fields are untouched |
| UartProperties.SetIdempotent | uartserial.py:57-69 | repeating a set with the same arguments changes nothing more |
| UartProperties.PackSetsCheckByte | uartserial.py:71-92 | pack always recomputes the check byte 0xCE and return_length (length for reads, 1 otherwise), and stores the frame unless packing raises |
| UartProperties.ClosedPortRaises | uartserial.py:113-120 | on a closed port the call raises with the port untouched; only the expectation has been updated |
| UartProperties.FailedWriteClosesPort | uartserial.py:122-128 | when writing raises (broken link or a flag outside 0..255), the port is closed, nothing is sent, nothing is recorded, and the error propagates |
| UartProperties.ExchangeOutcome | uartserial.py:130-168 | on a working port with a flag in 0..255 the call returns; exactly the packed frame is sent; at most return_length bytes are consumed; the value returned and recorded is None exactly when nothing came back and otherwise the big-endian value of the reply |
| UartProperties.MismatchIsReported | uartserial.py:156-160 | a mismatch (expected, received) is reported exactly when an expectation exists, a value came back and they differ; the call still returns the value |
| UartProperties.ReadbackFailureHasNoMismatch | uartserial.py:156-165 | an empty reply is a failed readback and is never compared |
| UartProperties.ReadWithoutExpectation | uartserial.py:95-102 | a read without the `expected` keyword has a read flag, no expectation and length 4 unless passed, and never reports a mismatch |
| UartProperties.ReadWithExpectationKeyword | uartserial.py:95-101 | a read that passes `expected` runs with that value, or with the object's previous expectation when the value passed is None |
| UartProperties.ReadChecksAgainstExpectation | uartserial.py:95-101 | on a working port, a read that passes `expected` reports a mismatch (e, received) exactly when a value came back that differs from e, the value passed or, for None, the previous expectation |
| UartProperties.ReadSendsReadFrame | uartserial.py:95-102 | a read on a working port sends the 7-byte read frame and consumes at most `length` reply bytes |
| UartProperties.WriteAlwaysExpectsAck | uartserial.py:104-116 | a write always expects 0x32, whatever `expected` it is given, and on an open port packs an 11-byte frame with flag 1 and return_length 1 |
| UartProperties.WriteAcknowledgement | uartserial.py:104-107 | a write on a working port records the single reply byte, and reports no mismatch exactly when that byte is 0x32 |
| UartProperties.ScenarioRead | uartserial.py:95-102 | reading 0x1000 with reply 00 00 00 2A sends 31 CE 00 10 00 00 04 and returns 42 with no mismatch |
| UartProperties.ScenarioWrite | uartserial.py:104-107 | writing 0xDEADBEEF to 0x2000 sends 31 CE 01 20 00 00 04 DE AD BE EF; with reply 32 it records 0x32 and reports nothing |
| UartProperties.ScenarioMismatch | uartserial.py:156-168 | reading 0x10 expecting 0x10 with reply 00 00 00 11 reports (0x10, 0x11) and still returns 0x11 |
| UartProperties.ScenarioTimeout | uartserial.py:132-138 | an empty reply gives no value and a failed readback, and nothing is raised |
| UartProperties.ScenarioDefaultExpectation | uartserial.py:26 | a default-built object expects 0, so a read passing `expected` as None with reply 00 00 00 01 reports (0, 1) and returns 1 |

## Left out

- `openSerial` (uartserial.py:178-197): the per-host `.ini` lookup and the opening of a real port are configuration and I/O. The scripted `SerialPort` stands in for the port it returns.
- The `None` and `isinstance(ser, serial.Serial)` checks of `__init__` (uartserial.py:27-33): these are type checks on a foreign object; the constructor's precondition that the port is open stands for line 34.
- Console output: the echo line, "No Match" and "Unsuccessful Readback!" (uartserial.py:140-165). The mismatch and the readback failure are returned in a `Report`. The fields `echo` and `check` are not modelled.
- `__str__`, `tx_string` and `binascii.hexlify` (uartserial.py:53-55, 93): a hex rendering for display only.
- The Python 2 `x.encode("hex")` branch of `bytes2Int` (uartserial.py:13-14): it depends on the runtime's string type and computes the same value as the loop.
- `uart_id` is the constant `Frame.UartId`; no method of the class changes it.
- Timeouts and blocking in the real port: a read returns a prefix of the bytes the device sent, of length at most n. Which bytes have arrived before the timeout is given by the port's `rx`.
- Keyword arguments that `set` does not accept (Python raises a `TypeError`) and an `rw` keyword passed to `read` or `write` (always overwritten) are not modelled.
- Transport.SerialPort.Read: requires an open port. The only caller reads right after a successful write, which leaves the port open; the real port would raise on a closed one.
- Uart.UartCmd.Write: returns the report and not Python's `None`, so the printed mismatch stays observable.
