/** Which error a malformed body is: that of the first field, in the order of the standard,
    that cannot be read, then that of the rule the whole body breaks. */
module BodyFaults {
  import opened Bytes
  import opened Fields
  import opened Bodies

  /** The rule that the optional parameters of a body obey beyond their own form. */
  datatype Rule = AnyParams | OneOctetVersion | PayloadExcludesText

  /** The fields a body is read as. */
  datatype Shape =
    | Stop
    | Params(rule: Rule)
    | CText(max: nat, next: Shape)
    | One(next: Shape)
    | Short(next: Shape)
    | Dests(next: Shape)
    | Entries(next: Shape)

  function AddressThen(max: nat, next: Shape): (s: Shape) { One(One(CText(max, next))) }

  const MESSAGE := One(One(One(CText(17, CText(17, One(One(One(One(Short(Params(PayloadExcludesText)))))))))))

  function ShapeOf(k: Kind): (s: Shape)
  {
    match k
    case KBind => CText(16, CText(9, CText(13, One(AddressThen(41, Stop)))))
    case KBindResp => CText(16, Params(OneOctetVersion))
    case KOutbind => CText(16, CText(9, Stop))
    case KSubmit => CText(6, AddressThen(21, AddressThen(21, MESSAGE)))
    case KDeliver => CText(6, AddressThen(21, AddressThen(21, MESSAGE)))
    case KMulti => CText(6, AddressThen(21, Dests(MESSAGE)))
    case KData => CText(6, AddressThen(65, AddressThen(65, One(One(One(Params(AnyParams)))))))
    case KSubmitResp => CText(65, Params(AnyParams))
    case KDeliverResp => CText(65, Params(AnyParams))
    case KDataResp => CText(65, Params(AnyParams))
    case KMultiResp => CText(65, Entries(Params(AnyParams)))
    case KQuery => CText(65, AddressThen(21, Stop))
    case KQueryResp => CText(65, CText(17, One(One(Params(AnyParams)))))
    case KCancel => CText(6, CText(65, AddressThen(21, AddressThen(21, Stop))))
    case KReplace => CText(65, AddressThen(21, CText(17, CText(17, One(One(Short(Stop)))))))
    case KAlert => AddressThen(65, AddressThen(65, Params(AnyParams)))
    case KEmptyReq => Stop
    case KEmptyResp => Params(AnyParams)
  }

  const BAD_TEXT := Fatal(InvalidCString, 0)
  const TOO_SHORT := Fatal(InvalidFieldLength, 0)
  const BAD_PARAM := Fatal(InvalidTLVLength, 0)

  /** What follows n destinations, or the error of the first one that cannot be read. */
  function SkipDests(src: bytes, n: nat, declared: uint32): (r: Result<bytes>)
    decreases n
  {
    if n == 0 then Ok(src)
    else if |src| < 1 then Err(TOO_SHORT)
    else if src[0] != 1 && src[0] != 2 then Err(Fatal(FrameBoundaryLost, declared))
    else if src[0] == 1 && |src| < 3 then Err(TOO_SHORT)
    else
      var name := ReadC(if src[0] == 1 then src[3..] else src[1..], 21);
      if name.Err? then Err(BAD_TEXT) else SkipDests(name.value.1, n - 1, declared)
  }

  function SkipEntries(src: bytes, n: nat): (r: Result<bytes>)
    decreases n
  {
    if n == 0 then Ok(src)
    else if |src| < 2 then Err(TOO_SHORT)
    else
      var addr := ReadC(src[2..], 21);
      if addr.Err? then Err(BAD_TEXT)
      else if |addr.value.1| < 4 then Err(TOO_SHORT)
      else SkipEntries(addr.value.1[4..], n - 1)
  }

  function ParamsFault(rule: Rule, src: bytes, text: bytes): (e: Option<Error>)
  {
    if ReadTlvs(src).Err? then Some(BAD_PARAM)
    else
      var ts := ReadTlvs(src).value;
      match rule
      case AnyParams => None
      case OneOctetVersion =>
        if exists t | t in ts :: t.tag == 0x0210 && |t.value| != 1 then Some(Semantic(0xC2)) else None
      case PayloadExcludesText =>
        if text != [] && exists t | t in ts :: t.tag == 0x0424 && t.value != [] then Some(Semantic(0xC4)) else None
  }

  /** The first thing wrong with src read as s; text is the short message read so far. */
  function Fault(s: Shape, src: bytes, declared: uint32, text: bytes): (e: Option<Error>)
  {
    match s
    case Stop => if src == [] then None else Some(Semantic(0x02))
    case Params(rule) => ParamsFault(rule, src, text)
    case CText(max, next) =>
      if ReadC(src, max).Err? then Some(BAD_TEXT) else Fault(next, ReadC(src, max).value.1, declared, text)
    case One(next) => if |src| < 1 then Some(TOO_SHORT) else Fault(next, src[1..], declared, text)
    case Short(next) =>
      if |src| < 1 then Some(TOO_SHORT)
      else if src[0] == 255 then Some(Semantic(0x01))
      else if |src| < 1 + src[0] then Some(TOO_SHORT)
      else Fault(next, src[1 + src[0]..], declared, src[1..1 + src[0]])
    case Dests(next) =>
      if |src| < 1 then Some(TOO_SHORT)
      else if src[0] == 0 || src[0] == 255 then Some(Semantic(0x33))
      else
        (match SkipDests(src[1..], src[0], declared)
         case Err(e) => Some(e)
         case Ok(rest) => Fault(next, rest, declared, text))
    case Entries(next) =>
      if |src| < 1 then Some(TOO_SHORT)
      else
        (match SkipEntries(src[1..], src[0])
         case Err(e) => Some(e)
         case Ok(rest) => Fault(next, rest, declared, text))
  }

  // ----- The readers -----

  /** The reader reports this, and nothing when it succeeds. */
  predicate Reports<T>(r: Result<T>, e: Option<Error>)
  {
    match r
    case Ok(_) => e.None?
    case Err(x) => e == Some(x)
  }

  /** The reader fails as the shape says, or goes on with what is left. */
  predicate GoesOn<T>(r: Result<(T, bytes)>, e: Option<Error>, next: Shape, declared: uint32, text: bytes)
  {
    match r
    case Ok(v) => e == Fault(next, v.1, declared, text)
    case Err(x) => e == Some(x)
  }

  lemma CTextGoesOn(src: bytes, max: nat, next: Shape, declared: uint32, text: bytes)
    ensures GoesOn(ReadC(src, max), Fault(CText(max, next), src, declared, text), next, declared, text)
  {
  }

  lemma OneGoesOn(src: bytes, next: Shape, declared: uint32, text: bytes)
    ensures GoesOn(Read8(src), Fault(One(next), src, declared, text), next, declared, text)
  {
  }

  lemma AddressGoesOn(src: bytes, max: nat, next: Shape, declared: uint32, text: bytes)
    ensures GoesOn(ReadA(src, max), Fault(AddressThen(max, next), src, declared, text), next, declared, text)
  {
    OneGoesOn(src, One(CText(max, next)), declared, text);
    if Read8(src).Ok? {
      var s := Read8(src).value.1;
      OneGoesOn(s, CText(max, next), declared, text);
      if Read8(s).Ok? {
        CTextGoesOn(Read8(s).value.1, max, next, declared, text);
      }
    }
  }

  lemma ShortGoesOn(src: bytes, next: Shape, declared: uint32, text: bytes)
    ensures var r := ReadText(src);
            GoesOn(r, Fault(Short(next), src, declared, text), next, declared, if r.Ok? then r.value.0 else text)
  {
    if |src| >= 1 && src[0] != 255 && |src| >= 1 + src[0] {
      var n := src[0];
      assert src[1..][..n] == src[1..1 + n] && src[1..][n..] == src[1 + n..];
    }
  }

  lemma ParamsReported(src: bytes, declared: uint32, text: bytes)
    ensures Reports(ReadTlvs(src), Fault(Params(AnyParams), src, declared, text))
  {
  }

  lemma SkipsOneDest(src: bytes, n: nat, declared: uint32)
    requires n > 0
    ensures match ReadDest(src, declared)
            case Ok(v) => SkipDests(src, n, declared) == SkipDests(v.1, n - 1, declared)
            case Err(e) => SkipDests(src, n, declared) == Err(e)
  {
    if |src| >= 3 && src[0] == 1 {
      assert src[1..][1..][1..] == src[3..];
    }
  }

  lemma {:induction false} SkipsDests(src: bytes, n: nat, declared: uint32)
    ensures match ReadDests(src, n, declared)
            case Ok(v) => SkipDests(src, n, declared) == Ok(v.1)
            case Err(e) => SkipDests(src, n, declared) == Err(e)
    decreases n
  {
    if n == 0 {
    } else {
      SkipsOneDest(src, n, declared);
      if ReadDest(src, declared).Ok? {
        SkipsDests(ReadDest(src, declared).value.1, n - 1, declared);
      }
    }
  }

  lemma SkipsOneEntry(src: bytes, n: nat)
    requires n > 0
    ensures match ReadFailure(src)
            case Ok(v) => SkipEntries(src, n) == SkipEntries(v.1, n - 1)
            case Err(e) => SkipEntries(src, n) == Err(e)
  {
    if |src| >= 2 {
      assert src[1..][1..] == src[2..];
    }
  }

  lemma {:induction false} SkipsEntries(src: bytes, n: nat)
    ensures match ReadFailures(src, n)
            case Ok(v) => SkipEntries(src, n) == Ok(v.1)
            case Err(e) => SkipEntries(src, n) == Err(e)
    decreases n
  {
    if n == 0 {
    } else {
      SkipsOneEntry(src, n);
      if ReadFailure(src).Ok? {
        SkipsEntries(ReadFailure(src).value.1, n - 1);
      }
    }
  }

  lemma DestsGoOn(src: bytes, next: Shape, declared: uint32, text: bytes)
    ensures GoesOn(ReadDestList(src, declared), Fault(Dests(next), src, declared, text), next, declared, text)
  {
    if |src| >= 1 {
      SkipsDests(src[1..], src[0], declared);
    }
  }

  lemma EntriesGoOn(src: bytes, next: Shape, declared: uint32, text: bytes)
    ensures GoesOn(ReadFailureList(src), Fault(Entries(next), src, declared, text), next, declared, text)
  {
    if |src| >= 1 {
      SkipsEntries(src[1..], src[0]);
    }
  }

  // ----- The bodies -----

  lemma OnesGoOn(src: bytes, next: Shape, declared: uint32, text: bytes)
    ensures match Read8(src)
            case Err(e) => Fault(One(One(One(next))), src, declared, text) == Some(e)
            case Ok(v) =>
              match Read8(v.1)
              case Err(e) => Fault(One(One(One(next))), src, declared, text) == Some(e)
              case Ok(w) => GoesOn(Read8(w.1), Fault(One(One(One(next))), src, declared, text), next, declared, text)
  {
    OneGoesOn(src, One(One(next)), declared, text);
    if Read8(src).Ok? {
      var s := Read8(src).value.1;
      OneGoesOn(s, One(next), declared, text);
      if Read8(s).Ok? {
        OneGoesOn(Read8(s).value.1, next, declared, text);
      }
    }
  }

  /** The text, the parameters and their rule. */
  function ReadTail(src: bytes): (r: Result<(bytes, seq<Tlv>)>)
  {
    var (text, s) :- ReadText(src);
    var opt :- ReadTlvs(s);
    if HasPayload(opt) && text != [] then Err(Semantic(0xC4)) else Ok((text, opt))
  }

  lemma TailReported(src: bytes, declared: uint32)
    ensures Reports(ReadTail(src), Fault(Short(Params(PayloadExcludesText)), src, declared, []))
  {
    ShortGoesOn(src, Params(PayloadExcludesText), declared, []);
  }

  /** registered_delivery to sm_default_msg_id, then the tail. */
  function ReadRest(src: bytes): (r: Result<(bytes, seq<Tlv>)>)
  {
    var (_, s) :- Read8(src);
    var (_, s) :- Read8(s);
    var (_, s) :- Read8(s);
    var (_, s) :- Read8(s);
    ReadTail(s)
  }

  const TAIL := Short(Params(PayloadExcludesText))

  lemma RestReported(src: bytes, declared: uint32)
    ensures Reports(ReadRest(src), Fault(One(One(One(One(TAIL)))), src, declared, []))
  {
    OnesGoOn(src, One(TAIL), declared, []);
    if Read8(src).Ok? && Read8(Read8(src).value.1).Ok? && Read8(Read8(Read8(src).value.1).value.1).Ok? {
      var s := Read8(Read8(Read8(src).value.1).value.1).value.1;
      OneGoesOn(s, TAIL, declared, []);
      if Read8(s).Ok? {
        TailReported(Read8(s).value.1, declared);
      }
    }
  }

  function ReadDates(src: bytes): (r: Result<(bytes, seq<Tlv>)>)
  {
    var (_, s) :- ReadC(src, 17);
    var (_, s) :- ReadC(s, 17);
    ReadRest(s)
  }

  lemma DatesReported(src: bytes, declared: uint32)
    ensures Reports(ReadDates(src), Fault(CText(17, CText(17, One(One(One(One(TAIL)))))), src, declared, []))
  {
    var rest := One(One(One(One(TAIL))));
    CTextGoesOn(src, 17, CText(17, rest), declared, []);
    if ReadC(src, 17).Ok? {
      var s := ReadC(src, 17).value.1;
      CTextGoesOn(s, 17, rest, declared, []);
      if ReadC(s, 17).Ok? {
        RestReported(ReadC(s, 17).value.1, declared);
      }
    }
  }

  /** esm_class, protocol_id and priority_flag, then the dates. */
  function ReadFlags(src: bytes): (r: Result<(bytes, seq<Tlv>)>)
  {
    var (_, s) :- Read8(src);
    var (_, s) :- Read8(s);
    var (_, s) :- Read8(s);
    ReadDates(s)
  }

  lemma MessageIsFlags(src: bytes)
    ensures match ReadMessage(src)
            case Ok(m) => ReadFlags(src).Ok?
            case Err(e) => ReadFlags(src) == Err(e)
  {
  }

  lemma MessageReported(src: bytes, declared: uint32)
    ensures Reports(ReadMessage(src), Fault(MESSAGE, src, declared, []))
  {
    MessageIsFlags(src);
    var dates := CText(17, CText(17, One(One(One(One(TAIL))))));
    OnesGoOn(src, dates, declared, []);
    if Read8(src).Ok? && Read8(Read8(src).value.1).Ok? && Read8(Read8(Read8(src).value.1).value.1).Ok? {
      DatesReported(Read8(Read8(Read8(src).value.1).value.1).value.1, declared);
    }
  }

  lemma BindReported(src: bytes, declared: uint32)
    ensures Reports(ReadBind(src), Fault(CText(16, CText(9, CText(13, One(AddressThen(41, Stop))))), src, declared, []))
  {
    CTextGoesOn(src, 16, CText(9, CText(13, One(AddressThen(41, Stop)))), declared, []);
    if ReadC(src, 16).Ok? {
      var s1 := ReadC(src, 16).value.1;
      CTextGoesOn(s1, 9, CText(13, One(AddressThen(41, Stop))), declared, []);
      if ReadC(s1, 9).Ok? {
        var s2 := ReadC(s1, 9).value.1;
        CTextGoesOn(s2, 13, One(AddressThen(41, Stop)), declared, []);
        if ReadC(s2, 13).Ok? {
          var s3 := ReadC(s2, 13).value.1;
          OneGoesOn(s3, AddressThen(41, Stop), declared, []);
          if Read8(s3).Ok? {
            var s4 := Read8(s3).value.1;
            AddressGoesOn(s4, 41, Stop, declared, []);
          }
        }
      }
    }
  }

  lemma OutbindReported(src: bytes, declared: uint32)
    ensures Reports(ReadOutbind(src), Fault(CText(16, CText(9, Stop)), src, declared, []))
  {
    CTextGoesOn(src, 16, CText(9, Stop), declared, []);
    if ReadC(src, 16).Ok? {
      var s1 := ReadC(src, 16).value.1;
      CTextGoesOn(s1, 9, Stop, declared, []);
    }
  }

  lemma QueryReported(src: bytes, declared: uint32)
    ensures Reports(ReadQuery(src), Fault(CText(65, AddressThen(21, Stop)), src, declared, []))
  {
    CTextGoesOn(src, 65, AddressThen(21, Stop), declared, []);
    if ReadC(src, 65).Ok? {
      var s1 := ReadC(src, 65).value.1;
      AddressGoesOn(s1, 21, Stop, declared, []);
    }
  }

  lemma CancelReported(src: bytes, declared: uint32)
    ensures Reports(ReadCancel(src),
            Fault(CText(6, CText(65, AddressThen(21, AddressThen(21, Stop)))), src, declared, []))
  {
    CTextGoesOn(src, 6, CText(65, AddressThen(21, AddressThen(21, Stop))), declared, []);
    if ReadC(src, 6).Ok? {
      var s1 := ReadC(src, 6).value.1;
      CTextGoesOn(s1, 65, AddressThen(21, AddressThen(21, Stop)), declared, []);
      if ReadC(s1, 65).Ok? {
        var s2 := ReadC(s1, 65).value.1;
        AddressGoesOn(s2, 21, AddressThen(21, Stop), declared, []);
        if ReadA(s2, 21).Ok? {
          var s3 := ReadA(s2, 21).value.1;
          AddressGoesOn(s3, 21, Stop, declared, []);
        }
      }
    }
  }

  lemma ReplaceReported(src: bytes, declared: uint32)
    ensures Reports(ReadReplace(src),
            Fault(CText(65, AddressThen(21, CText(17, CText(17, One(One(Short(Stop))))))), src, declared, []))
  {
    CTextGoesOn(src, 65, AddressThen(21, CText(17, CText(17, One(One(Short(Stop)))))), declared, []);
    if ReadC(src, 65).Ok? {
      var s1 := ReadC(src, 65).value.1;
      AddressGoesOn(s1, 21, CText(17, CText(17, One(One(Short(Stop))))), declared, []);
      if ReadA(s1, 21).Ok? {
        var s2 := ReadA(s1, 21).value.1;
        CTextGoesOn(s2, 17, CText(17, One(One(Short(Stop)))), declared, []);
        if ReadC(s2, 17).Ok? {
          var s3 := ReadC(s2, 17).value.1;
          CTextGoesOn(s3, 17, One(One(Short(Stop))), declared, []);
          if ReadC(s3, 17).Ok? {
            var s4 := ReadC(s3, 17).value.1;
            OneGoesOn(s4, One(Short(Stop)), declared, []);
            if Read8(s4).Ok? {
              var s5 := Read8(s4).value.1;
              OneGoesOn(s5, Short(Stop), declared, []);
              if Read8(s5).Ok? {
                var s6 := Read8(s5).value.1;
                ShortGoesOn(s6, Stop, declared, []);
              }
            }
          }
        }
      }
    }
  }

  lemma AlertReported(src: bytes, declared: uint32)
    ensures Reports(ReadAlert(src), Fault(AddressThen(65, AddressThen(65, Params(AnyParams))), src, declared, []))
  {
    AddressGoesOn(src, 65, AddressThen(65, Params(AnyParams)), declared, []);
    if ReadA(src, 65).Ok? {
      var s1 := ReadA(src, 65).value.1;
      AddressGoesOn(s1, 65, Params(AnyParams), declared, []);
      if ReadA(s1, 65).Ok? {
        var s2 := ReadA(s1, 65).value.1;
        ParamsReported(s2, declared, []);
      }
    }
  }

  lemma DataReported(src: bytes, declared: uint32)
    ensures Reports(ReadData(src),
            Fault(CText(6, AddressThen(65, AddressThen(65, One(One(One(Params(AnyParams))))))), src, declared, []))
  {
    CTextGoesOn(src, 6, AddressThen(65, AddressThen(65, One(One(One(Params(AnyParams)))))), declared, []);
    if ReadC(src, 6).Ok? {
      var s1 := ReadC(src, 6).value.1;
      AddressGoesOn(s1, 65, AddressThen(65, One(One(One(Params(AnyParams))))), declared, []);
      if ReadA(s1, 65).Ok? {
        var s2 := ReadA(s1, 65).value.1;
        AddressGoesOn(s2, 65, One(One(One(Params(AnyParams)))), declared, []);
        if ReadA(s2, 65).Ok? {
          var s3 := ReadA(s2, 65).value.1;
          OneGoesOn(s3, One(One(Params(AnyParams))), declared, []);
          if Read8(s3).Ok? {
            var s4 := Read8(s3).value.1;
            OneGoesOn(s4, One(Params(AnyParams)), declared, []);
            if Read8(s4).Ok? {
              var s5 := Read8(s4).value.1;
              OneGoesOn(s5, Params(AnyParams), declared, []);
              if Read8(s5).Ok? {
                var s6 := Read8(s5).value.1;
                ParamsReported(s6, declared, []);
              }
            }
          }
        }
      }
    }
  }

  lemma QueryRespReported(src: bytes, declared: uint32)
    ensures Reports(ReadQueryResp(src), Fault(CText(65, CText(17, One(One(Params(AnyParams))))), src, declared, []))
  {
    CTextGoesOn(src, 65, CText(17, One(One(Params(AnyParams)))), declared, []);
    if ReadC(src, 65).Ok? {
      var s1 := ReadC(src, 65).value.1;
      CTextGoesOn(s1, 17, One(One(Params(AnyParams))), declared, []);
      if ReadC(s1, 17).Ok? {
        var s2 := ReadC(s1, 17).value.1;
        OneGoesOn(s2, One(Params(AnyParams)), declared, []);
        if Read8(s2).Ok? {
          var s3 := Read8(s2).value.1;
          OneGoesOn(s3, Params(AnyParams), declared, []);
          if Read8(s3).Ok? {
            var s4 := Read8(s3).value.1;
            ParamsReported(s4, declared, []);
          }
        }
      }
    }
  }

  lemma MultiRespReported(src: bytes, declared: uint32)
    ensures Reports(ReadMultiResp(src), Fault(CText(65, Entries(Params(AnyParams))), src, declared, []))
  {
    CTextGoesOn(src, 65, Entries(Params(AnyParams)), declared, []);
    if ReadC(src, 65).Ok? {
      var s1 := ReadC(src, 65).value.1;
      EntriesGoOn(s1, Params(AnyParams), declared, []);
      if ReadFailureList(s1).Ok? {
        var s2 := ReadFailureList(s1).value.1;
        ParamsReported(s2, declared, []);
      }
    }
  }

  lemma ShortReported(src: bytes, declared: uint32)
    ensures Reports(ReadShort(src), Fault(CText(6, AddressThen(21, AddressThen(21, MESSAGE))), src, declared, []))
  {
    CTextGoesOn(src, 6, AddressThen(21, AddressThen(21, MESSAGE)), declared, []);
    if ReadC(src, 6).Ok? {
      var s1 := ReadC(src, 6).value.1;
      AddressGoesOn(s1, 21, AddressThen(21, MESSAGE), declared, []);
      if ReadA(s1, 21).Ok? {
        var s2 := ReadA(s1, 21).value.1;
        AddressGoesOn(s2, 21, MESSAGE, declared, []);
        if ReadA(s2, 21).Ok? {
          var s3 := ReadA(s2, 21).value.1;
          MessageReported(s3, declared);
        }
      }
    }
  }

  lemma MultiReported(src: bytes, declared: uint32)
    ensures Reports(ReadMulti(src, declared), Fault(CText(6, AddressThen(21, Dests(MESSAGE))), src, declared, []))
  {
    CTextGoesOn(src, 6, AddressThen(21, Dests(MESSAGE)), declared, []);
    if ReadC(src, 6).Ok? {
      var s1 := ReadC(src, 6).value.1;
      AddressGoesOn(s1, 21, Dests(MESSAGE), declared, []);
      if ReadA(s1, 21).Ok? {
        var s2 := ReadA(s1, 21).value.1;
        DestsGoOn(s2, MESSAGE, declared, []);
        if ReadDestList(s2, declared).Ok? {
          var s3 := ReadDestList(s2, declared).value.1;
          MessageReported(s3, declared);
        }
      }
    }
  }

  lemma IdReported(src: bytes, max: nat, declared: uint32)
    ensures Reports(ReadIdAndTlvs(src, max), Fault(CText(max, Params(AnyParams)), src, declared, []))
  {
    CTextGoesOn(src, max, Params(AnyParams), declared, []);
  }

  lemma BindRespReported(src: bytes, declared: uint32)
    ensures Reports(ReadBindResp(src), Fault(CText(16, Params(OneOctetVersion)), src, declared, []))
  {
    CTextGoesOn(src, 16, Params(OneOctetVersion), declared, []);
  }

  lemma MessageKindReported(k: Kind, src: bytes, declared: uint32)
    requires k.KSubmit? || k.KDeliver? || k.KMulti?
    ensures Reports(ReadBody(k, src, declared), Fault(ShapeOf(k), src, declared, []))
  {
    if k.KMulti? {
      MultiReported(src, declared);
    } else {
      ShortReported(src, declared);
    }
  }

  lemma IdKindReported(k: Kind, src: bytes, declared: uint32)
    requires k.KBindResp? || k.KSubmitResp? || k.KDeliverResp? || k.KDataResp?
    ensures Reports(ReadBody(k, src, declared), Fault(ShapeOf(k), src, declared, []))
  {
    if k.KBindResp? {
      BindRespReported(src, declared);
    } else {
      IdReported(src, 65, declared);
    }
  }

  /** Every body that is refused is refused for the first field, in the order of the
      standard, that cannot be read, with the error of that kind of field; a body whose
      fields are all there, for the octets left over or the rule its parameters break. */
  lemma BodyFaultIsFirst(k: Kind, src: bytes, declared: uint32)
    requires !k.KEmptyReq? && !k.KEmptyResp?
    ensures Reports(ReadBody(k, src, declared), Fault(ShapeOf(k), src, declared, []))
  {
    match k
    case KBind => BindReported(src, declared);
    case KOutbind => OutbindReported(src, declared);
    case KQuery => QueryReported(src, declared);
    case KCancel => CancelReported(src, declared);
    case KReplace => ReplaceReported(src, declared);
    case KAlert => AlertReported(src, declared);
    case KData => DataReported(src, declared);
    case KQueryResp => QueryRespReported(src, declared);
    case KMultiResp => MultiRespReported(src, declared);
    case KSubmit | KDeliver | KMulti => MessageKindReported(k, src, declared);
    case KBindResp | KSubmitResp | KDeliverResp | KDataResp => IdKindReported(k, src, declared);
  }
}
