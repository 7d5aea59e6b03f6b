/** The decrypted message payload and its two readers (message-storage.ts): from the plaintext columns of
    an old row, and from the JSON a newer row holds encrypted.

    A JSON text is modelled by the value it stands for: writing a value and parsing it back gives that
    value. An absent field is JavaScript's `undefined`. */
module StoredPayload {
  import opened Optional

  datatype Name = MessageId | Subject | FromName | FromAddress | To | Cc | InReplyTo | References | Snippet
    | TextBody | HtmlBody | Attachments | Headers | DisplayName | Address | PartId | Filename | ContentType
    | Size | Related | Disposition | ContentId | AutoSubmitted | ListUnsubscribe | Precedence | ReturnPath
    | Labels | Other(string)

  /** Numbers that are not integers are not told apart. */
  datatype Json = Null | Bool(flag: bool) | Int(number: int) | Fraction | Text(text: string)
    | Array(items: seq<Json>) | Object(fields: map<Name, Json>)

  const MAX_SAFE: int := 9007199254740991

  datatype AddressEntry = AddressEntry(name: string, address: string)
  datatype Placement = Inline | Attached
  datatype AttachmentEntry = AttachmentEntry(partId: string, filename: string, contentType: string, size: int,
                                             related: bool, disposition: Placement, contentId: Option<string>)
  datatype HeaderSet = HeaderSet(autoSubmitted: string, listUnsubscribe: string, precedence: string,
                                 returnPath: string, labels: seq<string>)
  datatype Payload = Payload(messageId: Option<string>, subject: string, fromName: string, fromAddress: string,
                             to: seq<AddressEntry>, cc: Option<seq<AddressEntry>>, inReplyTo: Option<string>,
                             references: Option<seq<string>>, snippet: string, textBody: string, htmlBody: string,
                             attachments: Option<seq<AttachmentEntry>>, headers: Option<HeaderSet>)

  datatype Normalized = Ok(payload: Payload) | Invalid

  // ----- Reading JSON -----

  function Field(j: Json, name: Name): Option<Json> {
    if j.Object? && name in j.fields then Some(j.fields[name]) else None
  }

  function NullableText(j: Option<Json>): Option<string> {
    if j.Some? && j.value.Text? then Some(j.value.text) else None
  }

  function TextOr(j: Option<Json>, other: string): string {
    if j.Some? && j.value.Text? then j.value.text else other
  }

  function Items(j: Option<Json>): seq<Json> {
    if j.Some? && j.value.Array? then j.value.items else []
  }

  /** `typeof entry === "object"`, not null. */
  predicate ObjectLike(j: Json) {
    j.Object? || j.Array?
  }

  function ReadAddress(j: Json): AddressEntry {
    AddressEntry(TextOr(Field(j, DisplayName), ""), TextOr(Field(j, Address), ""))
  }

  function AddressesIn(items: seq<Json>): seq<AddressEntry> {
    if items == [] then []
    else (if ObjectLike(items[0]) then [ReadAddress(items[0])] else []) + AddressesIn(items[1..])
  }

  function TextsIn(items: seq<Json>): seq<string> {
    if items == [] then []
    else (if items[0].Text? then [items[0].text] else []) + TextsIn(items[1..])
  }

  function SizeOf(j: Option<Json>): int {
    if j.Some? && j.value.Int? && 0 <= j.value.number <= MAX_SAFE then j.value.number else 0
  }

  function ReadAttachment(j: Json, partId: string): AttachmentEntry {
    var related := Field(j, Related) == Some(Bool(true));
    var contentId := NullableText(Field(j, ContentId));
    AttachmentEntry(
      partId,
      TextOr(Field(j, Filename), ""),
      TextOr(Field(j, ContentType), "application/octet-stream"),
      SizeOf(Field(j, Size)),
      related,
      if Field(j, Disposition) == Some(Text("inline")) || related then Inline else Attached,
      if contentId == Some("") then None else contentId)
  }

  function AttachmentsIn(items: seq<Json>): seq<AttachmentEntry> {
    if items == [] then []
    else
      var partId := if ObjectLike(items[0]) then NullableText(Field(items[0], PartId)) else None;
      (if partId.Some? then [ReadAttachment(items[0], partId.value)] else []) + AttachmentsIn(items[1..])
  }

  function ReadHeaders(j: Json): HeaderSet {
    HeaderSet(
      TextOr(Field(j, AutoSubmitted), ""), TextOr(Field(j, ListUnsubscribe), ""), TextOr(Field(j, Precedence), ""),
      TextOr(Field(j, ReturnPath), ""), TextsIn(Items(Field(j, Labels))))
  }

  function Normalize(j: Json): Normalized {
    if !j.Object? then Invalid
    else
      Ok(Payload(
        NullableText(Field(j, MessageId)),
        TextOr(Field(j, Subject), ""), TextOr(Field(j, FromName), ""), TextOr(Field(j, FromAddress), ""),
        AddressesIn(Items(Field(j, To))),
        if Field(j, Cc) == Some(Null) then None else Some(AddressesIn(Items(Field(j, Cc)))),
        NullableText(Field(j, InReplyTo)),
        if Field(j, References) == Some(Null) then None else Some(TextsIn(Items(Field(j, References)))),
        TextOr(Field(j, Snippet), ""), TextOr(Field(j, TextBody), ""), TextOr(Field(j, HtmlBody), ""),
        if Field(j, Attachments) == Some(Null) then None else Some(AttachmentsIn(Items(Field(j, Attachments)))),
        if Field(j, Headers).None? then None else Some(ReadHeaders(Field(j, Headers).value))))
  }

  // ----- Writing JSON -----

  function NullOrText(t: Option<string>): Json {
    if t.None? then Null else Text(t.value)
  }

  function AddressJson(a: AddressEntry): Json {
    Object(map[DisplayName := Text(a.name), Address := Text(a.address)])
  }

  function AttachmentJson(a: AttachmentEntry): Json {
    var fields := map[PartId := Text(a.partId), Filename := Text(a.filename), ContentType := Text(a.contentType),
                      Size := Int(a.size), Related := Bool(a.related),
                      Disposition := Text(if a.disposition.Inline? then "inline" else "attachment")];
    Object(if a.contentId.None? then fields else fields[ContentId := Text(a.contentId.value)])
  }

  function AddressList(list: seq<AddressEntry>): (j: Json)
    ensures j.Array?
  {
    Array(seq(|list|, i requires 0 <= i < |list| => AddressJson(list[i])))
  }

  function TextList(list: seq<string>): (j: Json)
    ensures j.Array?
  {
    Array(seq(|list|, i requires 0 <= i < |list| => Text(list[i])))
  }

  function AttachmentList(list: seq<AttachmentEntry>): (j: Json)
    ensures j.Array?
  {
    Array(seq(|list|, i requires 0 <= i < |list| => AttachmentJson(list[i])))
  }

  function HeadersJson(h: HeaderSet): Json {
    Object(map[AutoSubmitted := Text(h.autoSubmitted), ListUnsubscribe := Text(h.listUnsubscribe),
               Precedence := Text(h.precedence), ReturnPath := Text(h.returnPath), Labels := TextList(h.labels)])
  }

  /** `JSON.stringify`: a field that is undefined is not written. */
  function ToJson(p: Payload): Json {
    var fields := map[
      MessageId := NullOrText(p.messageId), Subject := Text(p.subject), FromName := Text(p.fromName),
      FromAddress := Text(p.fromAddress), To := AddressList(p.to),
      Cc := if p.cc.None? then Null else AddressList(p.cc.value),
      InReplyTo := NullOrText(p.inReplyTo),
      References := if p.references.None? then Null else TextList(p.references.value),
      Snippet := Text(p.snippet), TextBody := Text(p.textBody), HtmlBody := Text(p.htmlBody),
      Attachments := if p.attachments.None? then Null else AttachmentList(p.attachments.value)];
    Object(if p.headers.None? then fields else fields[Headers := HeadersJson(p.headers.value)])
  }

  // ----- Reading an old row -----

  /** A nullable JSON column: NULL, or a text that parses to a value or to nothing. */
  datatype Column = NullColumn | Holds(parsed: Option<Json>)

  datatype Columns = Columns(messageId: Option<string>, subject: string, fromName: string, fromAddress: string,
                             to: Column, cc: Column, inReplyTo: Option<string>, references: Column,
                             snippet: string, textBody: string, htmlBody: string, attachments: Column)

  function Parsed(c: Column): Option<Json> {
    if c.NullColumn? then None else c.parsed
  }

  function LegacyPayload(c: Columns): Payload {
    Payload(
      c.messageId, c.subject, c.fromName, c.fromAddress,
      AddressesIn(Items(Parsed(c.to))),
      if c.cc.NullColumn? then None else Some(AddressesIn(Items(Parsed(c.cc)))),
      c.inReplyTo,
      if c.references.NullColumn? then None else Some(TextsIn(Items(Parsed(c.references)))),
      c.snippet, c.textBody, c.htmlBody,
      if c.attachments.NullColumn? then None else Some(AttachmentsIn(Items(Parsed(c.attachments)))),
      None)
  }

  // ----- What survives being written and read -----

  predicate NormalAttachment(a: AttachmentEntry) {
    0 <= a.size <= MAX_SAFE && (a.related ==> a.disposition.Inline?) && a.contentId != Some("")
  }

  /** Every attachment entry is in the readers' own normal form. */
  predicate Normal(p: Payload) {
    p.attachments.Some? ==> forall i | 0 <= i < |p.attachments.value| :: NormalAttachment(p.attachments.value[i])
  }

  lemma OneAddressBack(a: AddressEntry)
    ensures ObjectLike(AddressJson(a)) && ReadAddress(AddressJson(a)) == a
  {
  }

  lemma NextAddressRead(list: seq<AddressEntry>)
    requires list != []
    ensures AddressesIn(AddressList(list).items)
            == [ReadAddress(AddressJson(list[0]))] + AddressesIn(AddressList(list[1..]).items)
  {
    hide ReadAddress;
    var items := AddressList(list).items;
    OneAddressBack(list[0]);
    hide AddressJson;
    assert items[1..] == AddressList(list[1..]).items;
  }

  lemma {:induction false} AddressesBack(list: seq<AddressEntry>)
    ensures AddressesIn(AddressList(list).items) == list
  {
    if list == [] {
      assert AddressList(list).items == [];
    } else {
      hide *;
      AddressesBack(list[1..]);
      NextAddressRead(list);
      OneAddressBack(list[0]);
      assert list == [list[0]] + list[1..];
    }
  }

  lemma NextTextRead(list: seq<string>)
    requires list != []
    ensures TextsIn(TextList(list).items) == [list[0]] + TextsIn(TextList(list[1..]).items)
  {
    assert TextList(list).items[1..] == TextList(list[1..]).items;
  }

  lemma {:induction false} TextsBack(list: seq<string>)
    ensures TextsIn(TextList(list).items) == list
  {
    if list == [] {
      assert TextList(list).items == [];
    } else {
      hide *;
      TextsBack(list[1..]);
      NextTextRead(list);
      assert list == [list[0]] + list[1..];
    }
  }

  lemma OneAttachmentBack(a: AttachmentEntry)
    ensures ReadAttachment(AttachmentJson(a), a.partId) == a <==> NormalAttachment(a)
  {
    assert "inline" != "attachment" by { assert "inline"[0] == 'i' && "attachment"[0] == 'a'; }
  }

  /** The next attachment comes back as its own reading, if at all. */
  lemma NextAttachmentRead(list: seq<AttachmentEntry>)
    requires list != []
    ensures AttachmentsIn(AttachmentList(list).items)
            == [ReadAttachment(AttachmentJson(list[0]), list[0].partId)]
               + AttachmentsIn(AttachmentList(list[1..]).items)
  {
    hide ReadAttachment;
    var items := AttachmentList(list).items;
    PartIdKept(list[0]);
    hide AttachmentJson;
    assert items[1..] == AttachmentList(list[1..]).items;
  }

  lemma {:induction false} AttachmentsRead(list: seq<AttachmentEntry>)
    ensures var read := AttachmentsIn(AttachmentList(list).items);
            |read| == |list| && forall i | 0 <= i < |list| ::
                read[i] == ReadAttachment(AttachmentJson(list[i]), list[i].partId)
  {
    if list == [] {
      assert AttachmentList(list).items == [];
    } else {
      hide *;
      AttachmentsRead(list[1..]);
      NextAttachmentRead(list);
    }
  }

  lemma AttachmentsBack(list: seq<AttachmentEntry>)
    ensures AttachmentsIn(Items(Some(AttachmentList(list)))) == list <==>
            forall i | 0 <= i < |list| :: NormalAttachment(list[i])
  {
    hide ReadAttachment, AttachmentJson, NormalAttachment, AttachmentsIn;
    AttachmentsRead(list);
    forall i | 0 <= i < |list|
      ensures ReadAttachment(AttachmentJson(list[i]), list[i].partId) == list[i] <==> NormalAttachment(list[i])
    {
      OneAttachmentBack(list[i]);
    }
  }

  lemma PartIdKept(a: AttachmentEntry)
    ensures ObjectLike(AttachmentJson(a)) && NullableText(Field(AttachmentJson(a), PartId)) == Some(a.partId)
  {
  }

  lemma HeadersBack(h: HeaderSet)
    ensures ReadHeaders(HeadersJson(h)) == h
  {
    TextsBack(h.labels);
    hide TextsIn, TextList;
  }

  lemma FieldsWritten(p: Payload)
    ensures var j := ToJson(p);
            && j.Object?
            && Field(j, MessageId) == Some(NullOrText(p.messageId)) && Field(j, Subject) == Some(Text(p.subject))
            && Field(j, FromName) == Some(Text(p.fromName)) && Field(j, FromAddress) == Some(Text(p.fromAddress))
            && Field(j, To) == Some(AddressList(p.to))
            && Field(j, Cc) == Some(if p.cc.None? then Null else AddressList(p.cc.value))
            && Field(j, InReplyTo) == Some(NullOrText(p.inReplyTo))
            && Field(j, References) == Some(if p.references.None? then Null else TextList(p.references.value))
            && Field(j, Snippet) == Some(Text(p.snippet)) && Field(j, TextBody) == Some(Text(p.textBody))
            && Field(j, HtmlBody) == Some(Text(p.htmlBody))
            && Field(j, Attachments) == Some(if p.attachments.None? then Null else AttachmentList(p.attachments.value))
            && Field(j, Headers) == if p.headers.None? then None else Some(HeadersJson(p.headers.value))
  {
    hide AddressList, TextList, AttachmentList, HeadersJson, NullOrText;
  }

  /** A payload comes back from storage unchanged exactly when it is in normal form. */
  lemma PayloadRoundTrip(p: Payload)
    ensures Normalize(ToJson(p)) == Ok(p) <==> Normal(p)
  {
    hide AddressesIn, TextsIn, AttachmentsIn, AddressList, TextList, AttachmentList, ReadHeaders, HeadersJson,
         ToJson, Field, NormalAttachment;
    AddressesBack(p.to);
    if p.cc.Some? { AddressesBack(p.cc.value); }
    if p.references.Some? { TextsBack(p.references.value); }
    if p.attachments.Some? { AttachmentsBack(p.attachments.value); }
    if p.headers.Some? { HeadersBack(p.headers.value); }
    FieldsWritten(p);
  }

  lemma {:induction false} ReadAttachmentsAreNormal(items: seq<Json>)
    ensures forall i | 0 <= i < |AttachmentsIn(items)| :: NormalAttachment(AttachmentsIn(items)[i])
  {
    if items != [] {
      ReadAttachmentsAreNormal(items[1..]);
    }
  }

  /** Both readers give normal payloads, so what either of them read survives any number of rewrites. */
  lemma ReadersAreNormal(j: Json, c: Columns)
    ensures Normalize(j).Ok? ==> Normal(Normalize(j).payload) && Normalize(ToJson(Normalize(j).payload)) == Normalize(j)
    ensures Normal(LegacyPayload(c)) && Normalize(ToJson(LegacyPayload(c))) == Ok(LegacyPayload(c))
  {
    ReadAttachmentsAreNormal(Items(Field(j, Attachments)));
    ReadAttachmentsAreNormal(Items(Parsed(c.attachments)));
    PayloadRoundTrip(LegacyPayload(c));
    if Normalize(j).Ok? {
      PayloadRoundTrip(Normalize(j).payload);
    }
    hide AddressesIn, TextsIn, AttachmentsIn, ToJson, NormalAttachment;
  }
}
