/** Reading and writing a body are inverse to each other, kind by kind. */
module BodyLaws {
  import opened Bytes
  import opened Fields
  import opened Bodies

  /** A typed body its own decoder can give back: distribution lists carry no
      numbering and sc_interface_version is one octet. */
  predicate Readable(b: Body)
  {
    && (b.SubmitMulti? ==> NormalDests(b.dests))
    && (b.BindResp? ==> VersionsHaveOneOctet(b.optional))
  }

  lemma ReadPutId(id: bytes, o: seq<Tlv>, max: nat)
    requires FitsC(id, max) && Fits(o)
    ensures ReadIdAndTlvs(PutC(id, PutTlvs(o)), max) == Ok((id, o))
  {
    ReadPutC(id, PutTlvs(o), max);
    ReadPutTlvs(o);
  }

  lemma ReadIdSound(src: bytes, max: nat)
    requires ReadIdAndTlvs(src, max).Ok?
    ensures var (id, o) := ReadIdAndTlvs(src, max).value; src == PutC(id, PutTlvs(o))
  {
    ReadCSound(src, max);
    ReadTlvsSound(ReadC(src, max).value.1);
  }

  lemma ReadPutShort(st: bytes, source: Address, dest: Address, m: Message)
    requires FitsC(st, MAX_SERVICE_TYPE) && FitsA(source, MAX_ADDRESS) && FitsA(dest, MAX_ADDRESS) && FitsMessage(m)
    ensures ReadShort(PutC(st, PutA(source, PutA(dest, PutMessage(m))))) == Ok((st, source, dest, m))
  {
    ReadPutC(st, PutA(source, PutA(dest, PutMessage(m))), MAX_SERVICE_TYPE);
    ReadPutA(source, PutA(dest, PutMessage(m)), MAX_ADDRESS);
    ReadPutA(dest, PutMessage(m), MAX_ADDRESS);
    ReadPutMessage(m);
  }

  lemma ReadShortSound(src: bytes)
    requires ReadShort(src).Ok?
    ensures var (st, source, dest, m) := ReadShort(src).value; src == PutC(st, PutA(source, PutA(dest, PutMessage(m))))
  {
    var s1 := ReadC(src, MAX_SERVICE_TYPE).value.1;
    var s2 := ReadA(s1, MAX_ADDRESS).value.1;
    var s3 := ReadA(s2, MAX_ADDRESS).value.1;
    ReadCSound(src, MAX_SERVICE_TYPE);
    ReadASound(s1, MAX_ADDRESS);
    ReadASound(s2, MAX_ADDRESS);
    ReadMessageSound(s3);
  }

  lemma ReadPutBind(b: Body)
    requires b.BindReq? && FitsBody(b)
    ensures ReadBind(PutC(b.systemId, PutC(b.password, PutC(b.systemType,
                     Put8(b.version, PutA(Address(b.ton, b.npi, b.addressRange), [])))))) == Ok(b)
  {
    var a := Address(b.ton, b.npi, b.addressRange);
    var s3 := Put8(b.version, PutA(a, []));
    var s2 := PutC(b.systemType, s3);
    ReadPutC(b.systemId, PutC(b.password, s2), MAX_SYSTEM_ID);
    ReadPutC(b.password, s2, MAX_PASSWORD);
    ReadPutC(b.systemType, s3, MAX_SYSTEM_TYPE);
    ReadPut8(b.version, PutA(a, []));
    ReadPutA(a, [], MAX_ADDRESS_RANGE);
  }

  lemma ReadBindSound(src: bytes)
    requires ReadBind(src).Ok?
    ensures var b := ReadBind(src).value;
            src == PutC(b.systemId, PutC(b.password, PutC(b.systemType,
                   Put8(b.version, PutA(Address(b.ton, b.npi, b.addressRange), [])))))
  {
    var s1 := ReadC(src, MAX_SYSTEM_ID).value.1;
    var s2 := ReadC(s1, MAX_PASSWORD).value.1;
    var s3 := ReadC(s2, MAX_SYSTEM_TYPE).value.1;
    ReadCSound(src, MAX_SYSTEM_ID);
    ReadCSound(s1, MAX_PASSWORD);
    ReadCSound(s2, MAX_SYSTEM_TYPE);
    Read8Sound(s3);
    ReadASound(Read8(s3).value.1, MAX_ADDRESS_RANGE);
  }

  lemma ReadPutData(b: Body)
    requires b.DataSM? && FitsBody(b)
    ensures ReadData(PutC(b.serviceType, PutA(b.source, PutA(b.dest,
                     Put8(b.esmClass, Put8(b.registered, Put8(b.coding, PutTlvs(b.optional)))))))) == Ok(b)
  {
    var s5 := Put8(b.coding, PutTlvs(b.optional));
    var s4 := Put8(b.registered, s5);
    var s3 := Put8(b.esmClass, s4);
    ReadPutC(b.serviceType, PutA(b.source, PutA(b.dest, s3)), MAX_SERVICE_TYPE);
    ReadPutA(b.source, PutA(b.dest, s3), MAX_DATA_ADDRESS);
    ReadPutA(b.dest, s3, MAX_DATA_ADDRESS);
    ReadPut8(b.esmClass, s4);
    ReadPut8(b.registered, s5);
    ReadPut8(b.coding, PutTlvs(b.optional));
    ReadPutTlvs(b.optional);
  }

  lemma ReadDataSound(src: bytes)
    requires ReadData(src).Ok?
    ensures var b := ReadData(src).value;
            src == PutC(b.serviceType, PutA(b.source, PutA(b.dest,
                   Put8(b.esmClass, Put8(b.registered, Put8(b.coding, PutTlvs(b.optional)))))))
  {
    var s1 := ReadC(src, MAX_SERVICE_TYPE).value.1;
    var s2 := ReadA(s1, MAX_DATA_ADDRESS).value.1;
    var s3 := ReadA(s2, MAX_DATA_ADDRESS).value.1;
    ReadCSound(src, MAX_SERVICE_TYPE);
    ReadASound(s1, MAX_DATA_ADDRESS);
    ReadASound(s2, MAX_DATA_ADDRESS);
    var s4 := Read8(s3).value.1;
    var s5 := Read8(s4).value.1;
    Read8Sound(s3);
    Read8Sound(s4);
    Read8Sound(s5);
    ReadTlvsSound(Read8(s5).value.1);
  }

  lemma ReadPutQuery(b: Body)
    requires b.QuerySM? && FitsBody(b)
    ensures ReadQuery(PutC(b.messageId, PutA(b.source, []))) == Ok(b)
  {
    ReadPutC(b.messageId, PutA(b.source, []), MAX_MESSAGE_ID);
    ReadPutA(b.source, [], MAX_ADDRESS);
  }

  lemma ReadQuerySound(src: bytes)
    requires ReadQuery(src).Ok?
    ensures var b := ReadQuery(src).value; src == PutC(b.messageId, PutA(b.source, []))
  {
    ReadCSound(src, MAX_MESSAGE_ID);
    ReadASound(ReadC(src, MAX_MESSAGE_ID).value.1, MAX_ADDRESS);
  }

  lemma ReadPutQueryResp(b: Body)
    requires b.QuerySMResp? && FitsBody(b)
    ensures ReadQueryResp(PutC(b.messageId,
            PutC(b.finalDate, Put8(b.state, Put8(b.errorCode, PutTlvs(b.optional)))))) == Ok(b)
  {
    var s3 := Put8(b.errorCode, PutTlvs(b.optional));
    var s2 := Put8(b.state, s3);
    ReadPutC(b.messageId, PutC(b.finalDate, s2), MAX_MESSAGE_ID);
    ReadPutC(b.finalDate, s2, MAX_TIME);
    ReadPut8(b.state, s3);
    ReadPut8(b.errorCode, PutTlvs(b.optional));
    ReadPutTlvs(b.optional);
  }

  lemma ReadQueryRespSound(src: bytes)
    requires ReadQueryResp(src).Ok?
    ensures var b := ReadQueryResp(src).value;
            src == PutC(b.messageId, PutC(b.finalDate, Put8(b.state, Put8(b.errorCode, PutTlvs(b.optional)))))
  {
    var s1 := ReadC(src, MAX_MESSAGE_ID).value.1;
    var s2 := ReadC(s1, MAX_TIME).value.1;
    ReadCSound(src, MAX_MESSAGE_ID);
    ReadCSound(s1, MAX_TIME);
    var s3 := Read8(s2).value.1;
    Read8Sound(s2);
    Read8Sound(s3);
    ReadTlvsSound(Read8(s3).value.1);
  }

  lemma ReadPutCancel(b: Body)
    requires b.CancelSM? && FitsBody(b)
    ensures ReadCancel(PutC(b.serviceType, PutC(b.messageId, PutA(b.source, PutA(b.dest, []))))) == Ok(b)
  {
    var s3 := PutA(b.dest, []);
    var s2 := PutA(b.source, s3);
    ReadPutC(b.serviceType, PutC(b.messageId, s2), MAX_SERVICE_TYPE);
    ReadPutC(b.messageId, s2, MAX_MESSAGE_ID);
    ReadPutA(b.source, s3, MAX_ADDRESS);
    ReadPutA(b.dest, [], MAX_ADDRESS);
  }

  lemma ReadCancelSound(src: bytes)
    requires ReadCancel(src).Ok?
    ensures var b := ReadCancel(src).value;
            src == PutC(b.serviceType, PutC(b.messageId, PutA(b.source, PutA(b.dest, []))))
  {
    var s1 := ReadC(src, MAX_SERVICE_TYPE).value.1;
    var s2 := ReadC(s1, MAX_MESSAGE_ID).value.1;
    ReadCSound(src, MAX_SERVICE_TYPE);
    ReadCSound(s1, MAX_MESSAGE_ID);
    ReadASound(s2, MAX_ADDRESS);
    ReadASound(ReadA(s2, MAX_ADDRESS).value.1, MAX_ADDRESS);
  }

  lemma ReadPutReplace(b: Body)
    requires b.ReplaceSM? && FitsBody(b)
    ensures ReadReplace(PutC(b.messageId, PutA(b.source, PutC(b.schedule, PutC(b.validity,
                        Put8(b.registered, Put8(b.defaultId, PutText(b.text, [])))))))) == Ok(b)
  {
    var s6 := PutText(b.text, []);
    var s5 := Put8(b.defaultId, s6);
    var s4 := Put8(b.registered, s5);
    var s3 := PutC(b.validity, s4);
    var s2 := PutC(b.schedule, s3);
    ReadPutC(b.messageId, PutA(b.source, s2), MAX_MESSAGE_ID);
    ReadPutA(b.source, s2, MAX_ADDRESS);
    ReadPutC(b.schedule, s3, MAX_TIME);
    ReadPutC(b.validity, s4, MAX_TIME);
    ReadPut8(b.registered, s5);
    ReadPut8(b.defaultId, s6);
    ReadPutText(b.text, []);
  }

  lemma ReadReplaceSound(src: bytes)
    requires ReadReplace(src).Ok?
    ensures var b := ReadReplace(src).value;
            src == PutC(b.messageId, PutA(b.source, PutC(b.schedule, PutC(b.validity,
                   Put8(b.registered, Put8(b.defaultId, PutText(b.text, [])))))))
  {
    var s1 := ReadC(src, MAX_MESSAGE_ID).value.1;
    var s2 := ReadA(s1, MAX_ADDRESS).value.1;
    var s3 := ReadC(s2, MAX_TIME).value.1;
    ReadCSound(src, MAX_MESSAGE_ID);
    ReadASound(s1, MAX_ADDRESS);
    ReadCSound(s2, MAX_TIME);
    ReadCSound(s3, MAX_TIME);
    var s4 := ReadC(s3, MAX_TIME).value.1;
    var s5 := Read8(s4).value.1;
    Read8Sound(s4);
    Read8Sound(s5);
    ReadTextSound(Read8(s5).value.1);
  }

  lemma ReadPutAlert(b: Body)
    requires b.AlertNotification? && FitsBody(b)
    ensures ReadAlert(PutA(b.source, PutA(b.esme, PutTlvs(b.optional)))) == Ok(b)
  {
    ReadPutA(b.source, PutA(b.esme, PutTlvs(b.optional)), MAX_DATA_ADDRESS);
    ReadPutA(b.esme, PutTlvs(b.optional), MAX_DATA_ADDRESS);
    ReadPutTlvs(b.optional);
  }

  lemma ReadAlertSound(src: bytes)
    requires ReadAlert(src).Ok?
    ensures var b := ReadAlert(src).value; src == PutA(b.source, PutA(b.esme, PutTlvs(b.optional)))
  {
    var s1 := ReadA(src, MAX_DATA_ADDRESS).value.1;
    ReadASound(src, MAX_DATA_ADDRESS);
    ReadASound(s1, MAX_DATA_ADDRESS);
    ReadTlvsSound(ReadA(s1, MAX_DATA_ADDRESS).value.1);
  }

  lemma ReadPutOutbind(b: Body)
    requires b.Outbind? && FitsBody(b)
    ensures ReadOutbind(PutC(b.systemId, PutC(b.password, []))) == Ok(b)
  {
    ReadPutC(b.systemId, PutC(b.password, []), MAX_SYSTEM_ID);
    ReadPutC(b.password, [], MAX_PASSWORD);
  }

  lemma ReadOutbindSound(src: bytes)
    requires ReadOutbind(src).Ok?
    ensures var b := ReadOutbind(src).value; src == PutC(b.systemId, PutC(b.password, []))
  {
    ReadCSound(src, MAX_SYSTEM_ID);
    ReadCSound(ReadC(src, MAX_SYSTEM_ID).value.1, MAX_PASSWORD);
  }

  lemma ReadPutMulti(b: Body, declared: uint32)
    requires b.SubmitMulti? && FitsBody(b) && NormalDests(b.dests)
    ensures ReadMulti(PutC(b.serviceType, PutA(b.source, PutDestList(b.dests, PutMessage(b.message)))), declared) ==
            Ok(b)
  {
    var s4 := PutMessage(b.message);
    var s2 := PutDestList(b.dests, s4);
    ReadPutC(b.serviceType, PutA(b.source, s2), MAX_SERVICE_TYPE);
    ReadPutA(b.source, s2, MAX_ADDRESS);
    ReadPutDestList(b.dests, s4, declared);
    ReadPutMessage(b.message);
  }

  lemma ReadMultiSound(src: bytes, declared: uint32)
    requires ReadMulti(src, declared).Ok?
    ensures var b := ReadMulti(src, declared).value;
            src == PutC(b.serviceType, PutA(b.source, PutDestList(b.dests, PutMessage(b.message))))
  {
    var s1 := ReadC(src, MAX_SERVICE_TYPE).value.1;
    var s2 := ReadA(s1, MAX_ADDRESS).value.1;
    ReadCSound(src, MAX_SERVICE_TYPE);
    ReadASound(s1, MAX_ADDRESS);
    ReadDestListSound(s2, declared);
    ReadMessageSound(ReadDestList(s2, declared).value.1);
  }

  lemma ReadPutMultiResp(b: Body)
    requires b.SubmitMultiResp? && FitsBody(b)
    ensures ReadMultiResp(PutC(b.messageId, PutFailureList(b.unsuccessful, PutTlvs(b.optional)))) == Ok(b)
  {
    var s3 := PutTlvs(b.optional);
    ReadPutC(b.messageId, PutFailureList(b.unsuccessful, s3), MAX_MESSAGE_ID);
    ReadPutFailureList(b.unsuccessful, s3);
    ReadPutTlvs(b.optional);
  }

  lemma ReadMultiRespSound(src: bytes)
    requires ReadMultiResp(src).Ok?
    ensures var b := ReadMultiResp(src).value;
            src == PutC(b.messageId, PutFailureList(b.unsuccessful, PutTlvs(b.optional)))
  {
    var s1 := ReadC(src, MAX_MESSAGE_ID).value.1;
    ReadCSound(src, MAX_MESSAGE_ID);
    ReadFailureListSound(s1);
    ReadTlvsSound(ReadFailureList(s1).value.1);
  }

  predicate CarriesMessage(k: Kind) { k.KSubmit? || k.KDeliver? || k.KMulti? }

  lemma ReadPutCarrier(k: Kind, b: Body, declared: uint32)
    requires TypedFor(k, b) && FitsBody(b) && Readable(b) && CarriesMessage(k)
    ensures ReadBody(k, PutBody(b), declared) == Ok(b)
  {
    match k
    case KSubmit => ReadPutShort(b.serviceType, b.source, b.dest, b.message);
    case KDeliver => ReadPutShort(b.serviceType, b.source, b.dest, b.message);
    case KMulti => ReadPutMulti(b, declared);
  }

  lemma ReadPutRequest(k: Kind, b: Body, declared: uint32)
    requires TypedFor(k, b) && FitsBody(b) && Readable(b) && IsRequestKind(k) && !CarriesMessage(k)
    ensures ReadBody(k, PutBody(b), declared) == Ok(b)
  {
    match k
    case KBind => ReadPutBind(b);
    case KData => ReadPutData(b);
    case KQuery => ReadPutQuery(b);
    case KCancel => ReadPutCancel(b);
    case KReplace => ReadPutReplace(b);
    case KAlert => ReadPutAlert(b);
    case KOutbind => ReadPutOutbind(b);
  }

  lemma ReadPutResponse(k: Kind, b: Body, declared: uint32)
    requires TypedFor(k, b) && FitsBody(b) && Readable(b) && !IsRequestKind(k)
    ensures ReadBody(k, PutBody(b), declared) == Ok(b)
  {
    match k
    case KBindResp => ReadPutId(b.systemId, b.optional, MAX_SYSTEM_ID);
    case KSubmitResp => ReadPutId(b.messageId, b.optional, MAX_MESSAGE_ID);
    case KDeliverResp => ReadPutId(b.messageId, b.optional, MAX_MESSAGE_ID);
    case KDataResp => ReadPutId(b.messageId, b.optional, MAX_MESSAGE_ID);
    case KQueryResp => ReadPutQueryResp(b);
    case KMultiResp => ReadPutMultiResp(b);
  }

  /** Every readable typed body is read back from its octets. */
  lemma ReadPutBody(k: Kind, b: Body, declared: uint32)
    requires TypedFor(k, b) && FitsBody(b) && Readable(b)
    ensures ReadBody(k, PutBody(b), declared) == Ok(b)
  {
    if CarriesMessage(k) {
      ReadPutCarrier(k, b, declared);
    } else if IsRequestKind(k) {
      ReadPutRequest(k, b, declared);
    } else {
      ReadPutResponse(k, b, declared);
    }
  }

  lemma BindOctets(src: bytes, b: Body)
    requires ReadBind(src) == Ok(b)
    ensures src == PutBody(b)
  {
    ReadBindSound(src);
  }

  lemma DataOctets(src: bytes, b: Body)
    requires ReadData(src) == Ok(b)
    ensures src == PutBody(b)
  {
    ReadDataSound(src);
  }

  lemma QueryOctets(src: bytes, b: Body)
    requires ReadQuery(src) == Ok(b)
    ensures src == PutBody(b)
  {
    ReadQuerySound(src);
  }

  lemma QueryRespOctets(src: bytes, b: Body)
    requires ReadQueryResp(src) == Ok(b)
    ensures src == PutBody(b)
  {
    ReadQueryRespSound(src);
  }

  lemma CancelOctets(src: bytes, b: Body)
    requires ReadCancel(src) == Ok(b)
    ensures src == PutBody(b)
  {
    ReadCancelSound(src);
  }

  lemma ReplaceOctets(src: bytes, b: Body)
    requires ReadReplace(src) == Ok(b)
    ensures src == PutBody(b)
  {
    ReadReplaceSound(src);
  }

  lemma AlertOctets(src: bytes, b: Body)
    requires ReadAlert(src) == Ok(b)
    ensures src == PutBody(b)
  {
    ReadAlertSound(src);
  }

  lemma OutbindOctets(src: bytes, b: Body)
    requires ReadOutbind(src) == Ok(b)
    ensures src == PutBody(b)
  {
    ReadOutbindSound(src);
  }

  lemma MultiOctets(src: bytes, declared: uint32, b: Body)
    requires ReadMulti(src, declared) == Ok(b)
    ensures src == PutBody(b)
  {
    assert PutBody(b) == PutC(b.serviceType, PutA(b.source, PutDestList(b.dests, PutMessage(b.message))));
    ReadMultiSound(src, declared);
  }

  lemma MultiRespOctets(src: bytes, b: Body)
    requires ReadMultiResp(src) == Ok(b)
    ensures src == PutBody(b)
  {
    assert PutBody(b) == PutC(b.messageId, PutFailureList(b.unsuccessful, PutTlvs(b.optional)));
    ReadMultiRespSound(src);
  }

  lemma ShortOctets(k: Kind, src: bytes, declared: uint32, b: Body)
    requires k.KSubmit? || k.KDeliver?
    requires ReadBody(k, src, declared) == Ok(b)
    ensures src == PutBody(b)
  {
    assert PutBody(b) == PutC(b.serviceType, PutA(b.source, PutA(b.dest, PutMessage(b.message))));
    ReadShortSound(src);
  }

  lemma IdOctets(k: Kind, src: bytes, declared: uint32, b: Body)
    requires k.KBindResp? || k.KSubmitResp? || k.KDeliverResp? || k.KDataResp?
    requires ReadBody(k, src, declared) == Ok(b)
    ensures src == PutBody(b)
  {
    ReadIdSound(src, if k.KBindResp? then MAX_SYSTEM_ID else MAX_MESSAGE_ID);
  }

  /** Writing a body that was read gives back its octets. */
  lemma ReadBodyOctets(k: Kind, src: bytes, declared: uint32, b: Body)
    requires !k.KEmptyReq? && !k.KEmptyResp? && ReadBody(k, src, declared) == Ok(b)
    ensures src == PutBody(b)
  {
    match k
    case KBind => BindOctets(src, b);
    case KData => DataOctets(src, b);
    case KQuery => QueryOctets(src, b);
    case KQueryResp => QueryRespOctets(src, b);
    case KCancel => CancelOctets(src, b);
    case KReplace => ReplaceOctets(src, b);
    case KAlert => AlertOctets(src, b);
    case KOutbind => OutbindOctets(src, b);
    case KMulti => MultiOctets(src, declared, b);
    case KMultiResp => MultiRespOctets(src, b);
    case KSubmit => ShortOctets(k, src, declared, b);
    case KDeliver => ShortOctets(k, src, declared, b);
    case KBindResp => IdOctets(k, src, declared, b);
    case KSubmitResp => IdOctets(k, src, declared, b);
    case KDeliverResp => IdOctets(k, src, declared, b);
    case KDataResp => IdOctets(k, src, declared, b);
  }

  lemma ReadMessageFits(k: Kind, src: bytes, declared: uint32, b: Body)
    requires CarriesMessage(k) && ReadBody(k, src, declared) == Ok(b)
    ensures FitsBody(b) && Readable(b)
  {
  }

  lemma ReadReplaceFits(src: bytes, b: Body)
    requires ReadReplace(src) == Ok(b)
    ensures FitsBody(b) && Readable(b)
  {
  }

  lemma ReadBindFits(src: bytes, b: Body)
    requires ReadBind(src) == Ok(b)
    ensures FitsBody(b) && Readable(b)
  {
  }

  lemma ReadDataFits(src: bytes, b: Body)
    requires ReadData(src) == Ok(b)
    ensures FitsBody(b) && Readable(b)
  {
  }

  lemma ReadRequestFits(k: Kind, src: bytes, declared: uint32, b: Body)
    requires IsRequestKind(k) && !CarriesMessage(k) && !k.KEmptyReq? && ReadBody(k, src, declared) == Ok(b)
    ensures FitsBody(b) && Readable(b)
  {
    match k
    case KReplace => ReadReplaceFits(src, b);
    case KBind => ReadBindFits(src, b);
    case KData => ReadDataFits(src, b);
    case KQuery =>
    case KCancel =>
    case KAlert =>
    case KOutbind =>
  }

  lemma ReadResponseFits(k: Kind, src: bytes, declared: uint32, b: Body)
    requires !IsRequestKind(k) && !k.KEmptyResp? && ReadBody(k, src, declared) == Ok(b)
    ensures FitsBody(b) && Readable(b)
  {
  }

  /** Every body that is read is readable, and writing it gives back its octets. */
  lemma ReadBodySound(k: Kind, src: bytes, declared: uint32, b: Body)
    requires !k.KEmptyReq? && !k.KEmptyResp? && ReadBody(k, src, declared) == Ok(b)
    ensures FitsBody(b) && Readable(b) && src == PutBody(b)
  {
    ReadBodyOctets(k, src, declared, b);
    if CarriesMessage(k) {
      ReadMessageFits(k, src, declared, b);
    } else if IsRequestKind(k) {
      ReadRequestFits(k, src, declared, b);
    } else {
      ReadResponseFits(k, src, declared, b);
    }
  }
}
