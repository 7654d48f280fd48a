/**
 Card classification and record building of `RfidCardManager`
 (`handle_card`, `handle_card_type_a`, `handle_card_type_4b` in juliana.py).

 A presented card is an nfcpy tag object; here it is a `Tag` value carrying the
 NFC Forum tag type, the identifier bytes and the ISO 14443-A target fields
 `sens_res` (ATQA as sent on the air) and `sel_res` (SAK). The record handed to
 `send_nfc_tag` is a string-to-string map holding the key/value pairs of the
 Python dict that is later serialised to JSON (the dict's key order, which the
 JSON text keeps, is not modelled).
 */
module Cards {
  import opened Base
  import Hex

  /** The nfcpy tag classes `handle_card` tests with `isinstance`, in that order;
      `OtherKind` is any tag object of none of those classes. */
  datatype TagKind = Type1 | Type2 | Type3 | Type4A | Type4B | OtherKind

  datatype Tag = Tag(kind: TagKind, identifier: seq<byte>, sensRes: seq<byte>, selRes: seq<byte>)

  /** The key/value pairs of the Python dict passed to `send_nfc_tag`. */
  type Record = map<string, string>

  /** Why no record was emitted; each comes with an error log line and a toast. */
  datatype Rejection =
    | UnsupportedType   // Type 1 or Type 3 tag
    | UnknownType       // a tag of no recognised class
    | RandomUid         // single-size UID in random-ID mode (AN10927 section 2.1.1)
    | NonUniqueUid      // fixed but non-unique single-size UID (AN10927 section 2.1.2)

  /** What handling one card produces: at most one record. */
  datatype Outcome = Emit(record: Record) | Reject(reason: Rejection)

  /** The tag types served by the ISO 14443-A handler. */
  predicate IsTypeA(kind: TagKind) {
    kind == Type2 || kind == Type4A
  }

  /** The UID screening of `handle_card_type_a`: a 4-byte UID starting with 0x08 is a
      random ID; otherwise a 4-byte UID whose first byte has low nibble 0xF is a fixed
      non-unique ID; any other UID (of any other length, too) is accepted. The code's
      mask `identifier[0] & 0x0F` is written `% 16`: on a byte (never negative) keeping
      the low four bits and taking the remainder by 16 are the same. */
  function CheckUid(id: seq<byte>): (r: Option<Rejection>)
    ensures r == Some(RandomUid) <==> |id| == 4 && id[0] == 0x08
    ensures r == Some(NonUniqueUid) <==> |id| == 4 && id[0] % 16 == 15
    ensures r.None? <==> |id| != 4 || (id[0] != 0x08 && id[0] % 16 != 15)
  {
    if |id| == 4 && id[0] == 0x08 then Some(RandomUid)
    else if |id| == 4 && id[0] % 16 == 0x0F then Some(NonUniqueUid)
    else None
  }

  /** The two rules applied in the other order give the same verdict on every UID:
      no byte both equals 0x08 and has low nibble 0xF. */
  lemma UidRulesCommute(id: seq<byte>)
    ensures CheckUid(id) ==
      (if |id| == 4 && id[0] % 16 == 0x0F then Some(NonUniqueUid)
       else if |id| == 4 && id[0] == 0x08 then Some(RandomUid)
       else None)
  {
  }

  /** True when `field` holds the colon form of `bytes`: it reads back to them, and
      it is empty exactly when they are. */
  predicate Encodes(field: string, bytes: seq<byte>) {
    if |bytes| == 0 then field == "" else Hex.ParseColonHex(field) == Some(bytes)
  }

  /** Every colon form encodes the bytes it was made from. */
  lemma ColonHexEncodes(bytes: seq<byte>)
    ensures Encodes(Hex.ColonHex(bytes), bytes)
  {
    if |bytes| >= 1 {
      Hex.ColonHexRoundTrip(bytes);
    }
  }

  /** The `iso-a` record: exactly the keys type, uid, atqa and sak; the UID, `sens_res`
      reversed (ATQA) and `sel_res` (SAK) in colon form. */
  function IsoARecord(tag: Tag): (r: Record)
    ensures r.Keys == {"type", "uid", "atqa", "sak"} && r["type"] == "iso-a"
    ensures Encodes(r["uid"], tag.identifier)
    ensures Encodes(r["atqa"], Reverse(tag.sensRes))
    ensures Encodes(r["sak"], tag.selRes)
  {
    ColonHexEncodes(tag.identifier);
    ColonHexEncodes(Reverse(tag.sensRes));
    ColonHexEncodes(tag.selRes);
    map[
      "type" := "iso-a",
      "uid" := Hex.ColonHex(tag.identifier),
      "atqa" := Hex.ColonHex(Reverse(tag.sensRes)),
      "sak" := Hex.ColonHex(tag.selRes)
    ]
  }

  /** The `iso-b` record: exactly the keys type and uid, the UID in colon form. */
  function IsoBRecord(tag: Tag): (r: Record)
    ensures r.Keys == {"type", "uid"} && r["type"] == "iso-b"
    ensures Encodes(r["uid"], tag.identifier)
  {
    ColonHexEncodes(tag.identifier);
    map["type" := "iso-b", "uid" := Hex.ColonHex(tag.identifier)]
  }

  /** `handle_card_type_a`: rejects random and non-unique 4-byte UIDs, and otherwise
      emits one `iso-a` record with exactly the keys type, uid, atqa and sak. */
  function HandleTypeA(tag: Tag): (r: Outcome)
    ensures r.Reject? <==> |tag.identifier| == 4 && (tag.identifier[0] == 0x08 || tag.identifier[0] % 16 == 15)
    ensures r.Reject? && tag.identifier[0] == 0x08 ==> r.reason == RandomUid
    ensures r.Reject? && tag.identifier[0] != 0x08 ==> r.reason == NonUniqueUid
    ensures r.Emit? ==> r.record.Keys == {"type", "uid", "atqa", "sak"} && r.record["type"] == "iso-a"
    ensures r.Emit? ==> Encodes(r.record["uid"], tag.identifier)
    ensures r.Emit? ==> Encodes(r.record["atqa"], Reverse(tag.sensRes))
    ensures r.Emit? ==> Encodes(r.record["sak"], tag.selRes)
  {
    match CheckUid(tag.identifier)
    case Some(reason) => Reject(reason)
    case None => Emit(IsoARecord(tag))
  }

  /** `handle_card_type_4b`: always emits one `iso-b` record holding only the type and the UID. */
  function HandleTypeB(tag: Tag): (r: Outcome)
    ensures r.Emit?
    ensures r.record.Keys == {"type", "uid"} && r.record["type"] == "iso-b"
    ensures Encodes(r.record["uid"], tag.identifier)
  {
    Emit(IsoBRecord(tag))
  }

  /** `handle_card`: the closed case split over the tag type. */
  function HandleCard(tag: Tag): (r: Outcome)
    ensures IsTypeA(tag.kind) ==> r == HandleTypeA(tag)
    ensures tag.kind == Type4B ==> r == HandleTypeB(tag)
    ensures tag.kind == Type1 || tag.kind == Type3 ==> r == Reject(UnsupportedType)
    ensures tag.kind == OtherKind ==> r == Reject(UnknownType)
  {
    match tag.kind
    case Type1 => Reject(UnsupportedType)
    case Type2 => HandleTypeA(tag)
    case Type3 => Reject(UnsupportedType)
    case Type4A => HandleTypeA(tag)
    case Type4B => HandleTypeB(tag)
    case OtherKind => Reject(UnknownType)
  }

  /** A record is emitted exactly for a Type 4B tag, or for a Type 2 / Type 4A tag whose
      UID passes the screening; its type names the handler that built it. */
  lemma HandleCardEmits(tag: Tag)
    ensures HandleCard(tag).Emit? <==>
      tag.kind == Type4B || (IsTypeA(tag.kind) && CheckUid(tag.identifier).None?)
    ensures HandleCard(tag).Emit? ==>
      "type" in HandleCard(tag).record &&
      (HandleCard(tag).record["type"] == "iso-a" <==> IsTypeA(tag.kind)) &&
      (HandleCard(tag).record["type"] == "iso-b" <==> tag.kind == Type4B)
    ensures HandleCard(tag).Emit? ==>
      ("atqa" in HandleCard(tag).record <==> IsTypeA(tag.kind)) &&
      ("sak" in HandleCard(tag).record <==> IsTypeA(tag.kind))
  {
  }

  /** Whatever record a card yields carries the card's UID in colon form. */
  lemma HandleCardUid(tag: Tag)
    requires HandleCard(tag).Emit?
    ensures "uid" in HandleCard(tag).record
    ensures Encodes(HandleCard(tag).record["uid"], tag.identifier)
  {
  }

  /** The colon form of the example UID. */
  lemma ExampleUidText()
    ensures Hex.ColonHex([0xAA, 0xBB, 0xCC, 0xDD]) == "aa:bb:cc:dd"
  {
    assert Hex.ByteHex(0xAA) == "aa" && Hex.ByteHex(0xBB) == "bb";
    assert Hex.ByteHex(0xCC) == "cc" && Hex.ByteHex(0xDD) == "dd";
    assert Hex.Groups([0xAA, 0xBB, 0xCC, 0xDD]) == ["aa", "bb", "cc", "dd"];
  }

  /** The colon forms of the example ATQA and SAK. */
  lemma ExampleAtqaSakText()
    ensures Hex.ColonHex([0x03, 0x44]) == "03:44"
    ensures Hex.ColonHex([0x08]) == "08"
  {
    assert Hex.ByteHex(0x03) == "03" && Hex.ByteHex(0x44) == "44" && Hex.ByteHex(0x08) == "08";
    assert Hex.Groups([0x03, 0x44]) == ["03", "44"];
    assert Hex.Groups([0x08]) == ["08"];
  }

  /** A Type 2 tag with UID aa:bb:cc:dd, ATQA 0x0344 (sent low byte first) and SAK 0x08. */
  lemma IsoAExample()
    ensures HandleCard(Tag(Type2, [0xAA, 0xBB, 0xCC, 0xDD], [0x44, 0x03], [0x08])) ==
      Emit(map["type" := "iso-a", "uid" := "aa:bb:cc:dd", "atqa" := "03:44", "sak" := "08"])
  {
    var tag := Tag(Type2, [0xAA, 0xBB, 0xCC, 0xDD], [0x44, 0x03], [0x08]);
    assert CheckUid(tag.identifier).None?;
    assert Reverse(tag.sensRes) == [0x03, 0x44];
    ExampleUidText();
    ExampleAtqaSakText();
    assert HandleCard(tag) == Emit(IsoARecord(tag));
  }
}
