/** Concatenation headers: the user data header of GSM 03.40 sections 9.2.3.24.1 and
    9.2.3.24.8, and the SMPP sar_ parameters (message/message.go). */
module Concatenation {
  import opened Bytes
  import opened Fields

  /** What a concatenation header says, and the header's length in octets. */
  datatype Header = Udh(reference: uint16, total: byte, sequence: byte, headerLen: nat)

  function BuildUdh8(reference: byte, total: byte, sequence: byte): (s: bytes)
  {
    [0x05, 0x00, 0x03, reference, total, sequence]
  }

  function BuildUdh16(reference: uint16, total: byte, sequence: byte): (s: bytes)
  {
    [0x06, 0x08, 0x04, reference / 256, reference % 256, total, sequence]
  }

  /** The first concatenation element from offset off on; elements of other kinds are
      skipped. */
  function FindElement(s: bytes, headerLen: nat, off: nat): (r: Option<Header>)
    requires headerLen <= |s|
    decreases headerLen - off
  {
    if off + 2 > headerLen then None
    else
      var length := s[off + 1] as int;
      if off + 2 + length > headerLen then None
      else
        var value := s[off + 2..off + 2 + length];
        if s[off] == 0x00 then
          if length != 3 then None else Some(Udh(value[0] as int, value[1], value[2], headerLen))
        else if s[off] == 0x08 then
          if length != 4 then None else Some(Udh(U16(value[..2]), value[2], value[3], headerLen))
        else FindElement(s, headerLen, off + 2 + length)
  }

  function ParseUdh(s: bytes): (r: Option<Header>)
  {
    if |s| < 1 then None
    else
      var headerLen := s[0] as int + 1;
      if headerLen > |s| || headerLen < 6 then None else FindElement(s, headerLen, 1)
  }

  method ParseConcatUDH(userData: bytes) returns (r: Result<Header>)
    ensures r == if ParseUdh(userData).Some? then Ok(ParseUdh(userData).value) else Err(Rejected)
  {
    if |userData| < 1 {
      return Err(Rejected);
    }
    var headerLen := userData[0] as int + 1;
    if headerLen > |userData| || headerLen < 6 {
      return Err(Rejected);
    }
    var off := 1;
    while off + 2 <= headerLen
      invariant 1 <= off
      invariant ParseUdh(userData) == FindElement(userData, headerLen, off)
      decreases headerLen - off
    {
      var iei, length := userData[off], userData[off + 1] as int;
      off := off + 2;
      if off + length > headerLen {
        return Err(Rejected);
      }
      var value := userData[off..off + length];
      off := off + length;
      if iei == 0x00 {
        if length != 3 {
          return Err(Rejected);
        }
        return Ok(Udh(value[0] as int, value[1], value[2], headerLen));
      }
      if iei == 0x08 {
        if length != 4 {
          return Err(Rejected);
        }
        return Ok(Udh(U16(value[..2]), value[2], value[3], headerLen));
      }
    }
    r := Err(Rejected);
  }

  /** A header this code builds is read back, whatever content follows it. */
  lemma ParseBuilt8(reference: byte, total: byte, sequence: byte, content: bytes)
    ensures ParseUdh(BuildUdh8(reference, total, sequence) + content) == Some(Udh(reference as int, total, sequence, 6))
  {
    var s := BuildUdh8(reference, total, sequence) + content;
    assert s[3..6] == [reference, total, sequence];
  }

  lemma ParseBuilt16(reference: uint16, total: byte, sequence: byte, content: bytes)
    ensures ParseUdh(BuildUdh16(reference, total, sequence) + content) == Some(Udh(reference, total, sequence, 7))
  {
    var s := BuildUdh16(reference, total, sequence) + content;
    assert s[3..7] == [reference / 256, reference % 256, total, sequence];
    assert s[3..7][..2] == Put16(reference);
  }

  // ----- SAR -----

  const TAG_REF: uint16 := 0x020c
  const TAG_TOTAL: uint16 := 0x020e
  const TAG_SEQ: uint16 := 0x020f

  function SarTlvs(reference: uint16, total: byte, sequence: byte): (ts: seq<Tlv>)
  {
    [Tlv(TAG_REF, [reference / 256, reference % 256]), Tlv(TAG_TOTAL, [total]), Tlv(TAG_SEQ, [sequence])]
  }

  /** What ParseSAR has seen so far. */
  datatype Seen = Seen(reference: Option<uint16>, total: Option<byte>, sequence: Option<byte>)

  function ReadSar(ts: seq<Tlv>, seen: Seen): (r: Option<Seen>)
    decreases |ts|
  {
    if ts == [] then Some(seen)
    else if ts[0].tag == TAG_REF then
      if |ts[0].value| != 2 then None else ReadSar(ts[1..], seen.(reference := Some(U16(ts[0].value))))
    else if ts[0].tag == TAG_TOTAL then
      if |ts[0].value| != 1 then None else ReadSar(ts[1..], seen.(total := Some(ts[0].value[0])))
    else if ts[0].tag == TAG_SEQ then
      if |ts[0].value| != 1 then None else ReadSar(ts[1..], seen.(sequence := Some(ts[0].value[0])))
    else ReadSar(ts[1..], seen)
  }

  predicate SarComplete(x: Seen)
  {
    x.reference.Some? && x.total.Some? && x.sequence.Some? && 1 <= x.sequence.value <= x.total.value
  }

  method ParseSAR(optional: seq<Tlv>) returns (r: Result<(uint16, byte, byte)>)
    ensures var x := ReadSar(optional, Seen(None, None, None));
            r == if x.Some? && SarComplete(x.value)
                 then Ok((x.value.reference.value, x.value.total.value, x.value.sequence.value)) else Err(Rejected)
  {
    var seen := Seen(None, None, None);
    for i := 0 to |optional|
      invariant ReadSar(optional, Seen(None, None, None)) == ReadSar(optional[i..], seen)
    {
      assert optional[i..][1..] == optional[i + 1..];
      var p := optional[i];
      if p.tag == TAG_REF {
        if |p.value| != 2 {
          return Err(Rejected);
        }
        seen := seen.(reference := Some(U16(p.value)));
      } else if p.tag == TAG_TOTAL {
        if |p.value| != 1 {
          return Err(Rejected);
        }
        seen := seen.(total := Some(p.value[0]));
      } else if p.tag == TAG_SEQ {
        if |p.value| != 1 {
          return Err(Rejected);
        }
        seen := seen.(sequence := Some(p.value[0]));
      }
    }
    if SarComplete(seen) {
      r := Ok((seen.reference.value, seen.total.value, seen.sequence.value));
    } else {
      r := Err(Rejected);
    }
  }

  /** The parameters this code builds are read back. */
  lemma ParseBuiltSar(reference: uint16, total: byte, sequence: byte)
    requires 1 <= sequence <= total
    ensures var x := ReadSar(SarTlvs(reference, total, sequence), Seen(None, None, None));
            x == Some(Seen(Some(reference), Some(total), Some(sequence))) && SarComplete(x.value)
  {
    var ts := SarTlvs(reference, total, sequence);
    assert ts[0].value == Put16(reference);
    var ts1, ts2 := ts[1..], ts[1..][1..];
    assert ReadSar(ts, Seen(None, None, None)) == ReadSar(ts1, Seen(Some(reference), None, None));
    assert ReadSar(ts1, Seen(Some(reference), None, None)) == ReadSar(ts2, Seen(Some(reference), Some(total), None));
    assert ts2[1..] == [];
  }
}
