/** What the two decoders refuse, and with which error. */
module Refusals {
  import opened Wrappers
  import opened Octets
  import opened Operations
  import opened Wire
  import opened B1Codec
  import opened B1Record
  import CompactCodec
  import Varint

  /** The envelope is checked from its size to its length field. */
  lemma EnvelopeRefused(bytes: Bytes, supported: set<u32>)
    ensures var answer := Decode(bytes, supported);
            && (|bytes| < 7 ==> answer == Err(Truncated))
            && (|bytes| > 0x10_0000 ==> answer == Err(Error.LimitExceeded("operation size")))
            && (7 <= |bytes| <= 0x10_0000 && (bytes[0] != 0x42 || bytes[1] != 0x31) ==> answer == Err(InvalidMagic))
            && (7 <= |bytes| <= 0x10_0000 && bytes[0] == 0x42 && bytes[1] == 0x31 ==>
                  && (BE32(|bytes| - 7) != bytes[3..7] ==> answer == Err(Operations.Malformed("envelope length")))
                  && (BE32(|bytes| - 7) == bytes[3..7] && !(1 <= bytes[2] <= 7) ==> answer == Err(UnknownOperation(bytes[2]))))
  {
    if 7 <= |bytes| <= 0x10_0000 {
      assert bytes[..2] == [bytes[0], bytes[1]];
      if BE32(|bytes| - 7) == bytes[3..7] {
        BE32Injective(|bytes| - 7, FromBE32(bytes[3..7]));
      }
    }
  }

  /** A record cut anywhere is refused: by its size inside the envelope, by its length field behind it. */
  lemma CutIsRefused(r: Record, supported: set<u32>, k: nat)
    requires Encode(r).Ok? && k < |Encode(r).value|
    ensures Decode(Encode(r).value[..k], supported) == Err(if k < 7 then Truncated else Operations.Malformed("envelope length"))
  {
    hide Content, DecodeContent, Validate, OperationSize, ExtensionsSize;
    EncodedSizeIsExact(r);
    ValidFits(r.operation);
    var bytes := Encode(r).value;
    EnvelopeRead(Tag(r.operation), ExactSize(r).value - ENVELOPE_OCTETS, Content(r));
    if k >= 7 {
      assert bytes[..k][..2] == bytes[..2] && bytes[..k][3..7] == bytes[3..7];
    }
  }

  // ---- Extensions ----

  lemma StopsAtFirst(supported: set<u32>, seen: set<u32>, n: nat, e: Extension, s: Bytes, s1: Bytes)
    requires n > 0 && GetExtension(seen, s) == Parsed(e, s1) && e.id !in supported && e.critical
    ensures GetExtensions(supported, n, seen, s) == Failed(Error.UnsupportedCriticalExtension(e.id))
  {
  }

  lemma StopsLater(supported: set<u32>, seen: set<u32>, n: nat, e: Extension, s: Bytes, s1: Bytes, error: Error)
    requires n > 0 && GetExtension(seen, s) == Parsed(e, s1) && (e.id in supported || !e.critical)
    requires GetExtensions(supported, n - 1, seen + {e.id}, s1) == Failed(error)
    ensures GetExtensions(supported, n, seen, s) == Failed(error)
  {
  }

  lemma {:induction false} FirstCriticalStops(supported: set<u32>, es: seq<Extension>, seen: set<u32>, k: nat, tail: Bytes)
    requires WritableExtensions(es) && k < |es|
    requires forall i, j | 0 <= i < j < |es| :: es[i].id != es[j].id
    requires forall e | e in es :: e.id !in seen
    requires es[k].id !in supported && es[k].critical
    requires forall i | 0 <= i < k :: es[i].id in supported || !es[i].critical
    ensures GetExtensions(supported, |es|, seen, PutExtensions(es, tail)) == Failed(Error.UnsupportedCriticalExtension(es[k].id))
  {
    hide GetExtension, GetExtensions, PutExtension;
    var rest := PutExtensions(es[1..], tail);
    GotExtension(seen, es[0], rest);
    if k == 0 {
      StopsAtFirst(supported, seen, |es|, es[0], PutExtension(es[0], rest), rest);
    } else {
      FirstCriticalStops(supported, es[1..], seen + {es[0].id}, k - 1, tail);
      StopsLater(supported, seen, |es|, es[0], PutExtension(es[0], rest), rest, Error.UnsupportedCriticalExtension(es[k].id));
    }
  }

  lemma PayloadFits(r: Record)
    requires Encode(r).Ok?
    ensures Validate(r.operation).Pass? && (r.operation.DataOp? ==> |r.operation.data.payload| <= MAX_RECORD_OCTETS)
  {
    hide Validate;
  }

  /** A record with an unknown critical extension is refused with the identifier of the first. */
  lemma CriticalIsRefused(r: Record, supported: set<u32>, k: nat)
    requires Encode(r).Ok? && k < |r.extensions| && r.extensions[k].id !in supported && r.extensions[k].critical
    requires forall i | 0 <= i < k :: r.extensions[i].id in supported || !r.extensions[i].critical
    ensures Decode(Encode(r).value, supported) == Err(Error.UnsupportedCriticalExtension(r.extensions[k].id))
  {
    hide PutOperation, PutExtensions, Validate, Decode, GetOperation, OperationSize, ExtensionsSize, GetExtensions;
    PayloadFits(r);
    ValidFits(r.operation);
    ContentSize(r);
    ContentEncodes(r);
    DecodeImage(Tag(r.operation), Content(r), supported);
    GotOperation(r.operation, [|r.extensions| as byte] + PutExtensions(r.extensions, []));
    GotCount(MAX_EXTENSIONS, |r.extensions|, PutExtensions(r.extensions, []));
    FirstCriticalStops(supported, r.extensions, {}, k, []);
  }

  /** Octets left inside the envelope behind the last field are refused. */
  lemma TrailingIsRefused(r: Record, supported: set<u32>, extra: Bytes)
    requires Encode(r).Ok? && Tolerable(supported, r.extensions) && extra != []
    ensures Fits(r.operation) && WritableExtensions(r.extensions) && |r.extensions| < 0x100
    ensures var content := PutOperation(r.operation, [|r.extensions|] + PutExtensions(r.extensions, extra));
            |content| <= 0x10_0000 - 7 ==> Decode(Image(Tag(r.operation), |content|, content), supported) == Err(TrailingBytes)
  {
    hide PutOperation, PutExtensions, Validate, Decode, GetOperation, OperationSize, ExtensionsSize, GetExtensions;
    PayloadFits(r);
    ValidFits(r.operation);
    var tail := [|r.extensions| as byte] + PutExtensions(r.extensions, extra);
    var content := PutOperation(r.operation, tail);
    GotOperation(r.operation, tail);
    GotCount(MAX_EXTENSIONS, |r.extensions|, PutExtensions(r.extensions, extra));
    GotExtensions(supported, r.extensions, {}, extra);
    if |content| <= 0x10_0000 - 7 {
      DecodeImage(Tag(r.operation), content, supported);
    }
  }

  // ---- The compact envelope ----

  /** The compact envelope is checked from its size over its header to its length. */
  lemma CompactEnvelopeRefused(bytes: Bytes, supported: set<u32>, c: CompactCodec.Context)
    ensures var answer := CompactCodec.DecodeCompact(bytes, supported, c);
            && (|bytes| < 3 ==> answer == Err(Truncated))
            && (|bytes| > 0x10_0000 ==> answer == Err(Error.LimitExceeded("compact operation size")))
            && (3 <= |bytes| <= 0x10_0000 ==>
                  && (!(0xb0 <= bytes[0] <= 0xb7) ==> answer == Err(InvalidMagic))
                  && (bytes[0] == 0xb0 ==> answer == Err(UnknownOperation(0)))
                  && (0xb1 <= bytes[0] <= 0xb7 ==>
                        match Varint.Get(bytes[1..])
                        case Failed(e) => answer == Err(e)
                        case Parsed(length, body) =>
                          && (length != |body| ==> answer == Err(Operations.Malformed("compact envelope length")))
                          && (length == |body| == 0 ==> answer == Err(Truncated))))
  {
    hide CompactCodec.DecodeBody, Varint.Get;
  }
}
