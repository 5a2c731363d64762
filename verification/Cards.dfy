/** Club cards: exactly which documents pass, and what the club's signature covers. */
module Cards {
  import opened Base
  import opened JsonValue
  import opened Signing
  import opened Handlers
  import opened PyDocument
  import opened Base64
  import opened Keys
  import Decimal

  // ---------------------------------------------------------------- fields

  predicate HasField(doc: Json, name: string, value: Json) {
    doc.JsObject? && Codes(name) in doc.members && doc.members[Codes(name)] == value
  }

  /** The field is this text, all of it ASCII. */
  predicate HasText(doc: Json, name: string, text: string) {
    && doc.JsObject? && Codes(name) in doc.members && doc.members[Codes(name)].JsText?
    && doc.members[Codes(name)].s == Codes(text) && forall i :: 0 <= i < |text| ==> text[i] as int < 128
  }

  lemma FieldExactly(doc: Json, name: string, value: Json)
    ensures FieldOf(doc, name) == Some(value) <==> HasField(doc, name, value)
  {
  }

  lemma TextExactly(doc: Json, name: string, text: string)
    ensures Ascii(FieldOf(doc, name)) == Some(text) <==> HasText(doc, name, text)
  {
    hide Codes;
    if FieldOf(doc, name).Some? && FieldOf(doc, name).value.JsText? { AsciiExactly(FieldOf(doc, name).value.s, text); }
  }

  lemma AsciiExactly(s: Name, text: string)
    ensures Ascii(Some(JsText(s))) == Some(text) <==> s == Codes(text) && forall i :: 0 <= i < |text| ==> text[i] as int < 128
  {
    var r := Ascii(Some(JsText(s)));
    if r.Some? { assert Codes(r.value) == s; }
    if s == Codes(text) && forall i :: 0 <= i < |text| ==> text[i] as int < 128 {
      assert forall i :: 0 <= i < |s| ==> s[i] == text[i] as int;
      assert r.Some? && r.value == text;
    }
  }

  /** Base64 text of exactly 32 bytes. */
  ghost predicate Key32(env: Env, s: string) {
    Shaped(s) && env.atob(s).Some? && |env.atob(s).value| == 32
  }

  lemma DecodedExactly(env: Env, s: string)
    ensures B64ToBytes(env, s) == if Shaped(s) then env.atob(s) else None
  {
    hide IsBase64Text, Shaped;
    ShapedExactly(s);
    if Shaped(s) { ShapedNotEmpty(s); }
  }

  lemma ShapedNotEmpty(s: string)
    requires Shaped(s)
    ensures s != ""
  {
  }

  lemma Key32Exactly(env: Env, s: string)
    ensures IsKey32(env, s) <==> Key32(env, s)
  {
    hide Shaped, B64ToBytes;
    DecodedExactly(env, s);
  }

  /** The document's `sig` is base64 text of these bytes. */
  ghost predicate SignedWith(env: Env, doc: Json, sig: Bytes) {
    exists text :: HasText(doc, "sig", text) && Shaped(text) && env.atob(text) == Some(sig)
  }

  /** The decoded signature beside the card, if there is one. */
  function CardSignature(env: Env, doc: Json): Option<Bytes> {
    var text := Ascii(FieldOf(doc, "sig"));
    if text.Some? then B64ToBytes(env, text.value) else None
  }

  lemma SignatureExactly(env: Env, doc: Json, sig: Bytes)
    ensures CardSignature(env, doc) == Some(sig) <==> SignedWith(env, doc, sig)
  {
    hide HasText, FieldOf, Ascii, Shaped, B64ToBytes;
    var text := Ascii(FieldOf(doc, "sig"));
    forall s ensures text == Some(s) <==> HasText(doc, "sig", s) { TextExactly(doc, "sig", s); }
    forall s ensures B64ToBytes(env, s) == if Shaped(s) then env.atob(s) else None { DecodedExactly(env, s); }
  }

  /** A member name of 1 to 64 code points. */
  predicate NamesMember(card: Json) {
    && card.JsObject? && Codes("member") in card.members && card.members[Codes("member")].JsText?
    && 1 <= |FromUnits(card.members[Codes("member")].s)| <= 64
  }

  lemma {:induction false} CodePointsExactly(s: Name)
    ensures CodePoints(s) == |FromUnits(s)|
    decreases |s|
  {
    if s == [] {
    } else if |s| > 1 && IsHigh(s[0]) && IsLow(s[1]) {
      CodePointsExactly(s[2..]);
    } else {
      CodePointsExactly(s[1..]);
    }
  }

  /** The text starts with a date, year-month-day in digits, and has at most 64 units. */
  ghost predicate StartsWithDate(s: Name) {
    10 <= |s| <= 64
    && exists y: string, m: string, d: string ::
         |y| == 4 && |m| == 2 && |d| == 2 && Decimal.AllDigits(y) && Decimal.AllDigits(m) && Decimal.AllDigits(d)
         && s[..10] == Codes(y + "-" + m + "-" + d)
  }

  ghost predicate Dated(card: Json) {
    && card.JsObject? && Codes("issued") in card.members && card.members[Codes("issued")].JsText?
    && StartsWithDate(card.members[Codes("issued")].s)
  }

  lemma DateExactly(s: Name)
    ensures IsIssued(s) <==> StartsWithDate(s)
  {
    hide StartsWithDate;
    if IsIssued(s) { IssuedIsDate(s); }
    if StartsWithDate(s) { DateIsIssued(s); }
  }

  lemma IssuedIsDate(s: Name)
    requires IsIssued(s)
    ensures StartsWithDate(s)
  {
    hide Decimal.AllDigits;
    assert forall i :: 0 <= i < 10 ==> s[i] < 128;
    var text := seq(10, i requires 0 <= i < 10 && s[i] < 128 => s[i] as char);
    assert Codes(text) == s[..10];
    var (y, m, d) := (text[..4], text[5..7], text[8..10]);
    DateParts(text);
    assert s[..10] == Codes(y + "-" + m + "-" + d);
  }

  lemma DateParts(text: string)
    requires |text| == 10 && text[4] == '-' && text[7] == '-'
    requires forall i :: 0 <= i < 10 && i != 4 && i != 7 ==> '0' <= text[i] <= '9'
    ensures text == text[..4] + "-" + text[5..7] + "-" + text[8..10]
    ensures Decimal.AllDigits(text[..4]) && Decimal.AllDigits(text[5..7]) && Decimal.AllDigits(text[8..10])
  {
  }

  lemma DateIsIssued(s: Name)
    requires StartsWithDate(s)
    ensures IsIssued(s)
  {
    var y: string, m: string, d: string :|
      |y| == 4 && |m| == 2 && |d| == 2 && Decimal.AllDigits(y) && Decimal.AllDigits(m) && Decimal.AllDigits(d)
      && s[..10] == Codes(y + "-" + m + "-" + d);
    var text := y + "-" + m + "-" + d;
    assert forall i :: 0 <= i < 10 ==> s[i] == s[..10][i] == text[i] as int;
    assert text[..4] == y && text[4] == '-' && text[5..7] == m && text[7] == '-' && text[8..10] == d;
    assert forall i :: 0 <= i < 10 && i != 4 && i != 7 ==> Decimal.IsDigit(text[i]);
  }

  /** A serial number: an integer a double holds exactly. */
  predicate Serialled(card: Json) {
    && card.JsObject? && Codes("serial") in card.members && card.members[Codes("serial")].JsNum?
    && card.members[Codes("serial")].num.Integral?
    && -9_007_199_254_740_991 <= card.members[Codes("serial")].num.n <= 9_007_199_254_740_991
  }

  ghost predicate Keyed(env: Env, card: Json, key: string) {
    HasText(card, "member_verify_key", key) && Key32(env, key)
  }

  /** What the field checks read off a card, in these terms. */
  lemma FieldsExactly(env: Env, card: Json)
    ensures var (member, issued, serial) := (FieldOf(card, "member"), FieldOf(card, "issued"), FieldOf(card, "serial"));
            && (member.Some? && member.value.JsText? && 1 <= CodePoints(member.value.s) <= CARD_MEMBER_MAX <==> NamesMember(card))
            && (issued.Some? && issued.value.JsText? && IsIssued(issued.value.s) <==> Dated(card))
            && (serial.Some? && serial.value.JsNum? && IsSafeInteger(serial.value.num) <==> Serialled(card))
    ensures var key := Ascii(FieldOf(card, "member_verify_key"));
            && (key.Some? && IsKey32(env, key.value) <==> exists k :: Keyed(env, card, k))
            && forall k :: Keyed(env, card, k) <==> key == Some(k) && IsKey32(env, k)
  {
    hide Codes, CodePoints, FromUnits, IsIssued, StartsWithDate, Ascii, HasText, IsKey32, Key32;
    var (member, issued) := (FieldOf(card, "member"), FieldOf(card, "issued"));
    if member.Some? && member.value.JsText? { CodePointsExactly(member.value.s); }
    if issued.Some? && issued.value.JsText? { DateExactly(issued.value.s); }
    var key := Ascii(FieldOf(card, "member_verify_key"));
    forall k ensures key == Some(k) <==> HasText(card, "member_verify_key", k) { TextExactly(card, "member_verify_key", k); }
    forall k ensures IsKey32(env, k) <==> Key32(env, k) { Key32Exactly(env, k); }
    if key.Some? && IsKey32(env, key.value) { assert Keyed(env, card, key.value); }
  }

  // ---------------------------------------------------------------- cards

  /** The club's key verifies this signature over the card's canonical bytes, all of its fields included. */
  ghost predicate ClubSigned(env: Env, card: Json, sig: Bytes) {
    Canonical(card).Some? && env.verify(env.clubKey, Utf8(Canonical(card).value), sig)
  }

  /** What an accepted document is: a complete card with this member key, safe numbers only, signed by the club. */
  ghost predicate IsClubCard(env: Env, doc: Json, card: Json, key: string) {
    && HasField(doc, "card", card) && card.JsObject? && AllSafe(card)
    && Keyed(env, card, key) && NamesMember(card) && Dated(card) && Serialled(card)
    && exists sig :: SignedWith(env, doc, sig) && ClubSigned(env, card, sig)
  }

  /** A document is accepted as a card of a member key if and only if it is such a club card. */
  lemma AcceptedExactly(env: Env, doc: Json, card: Json, key: string)
    ensures VerifyCard(env, doc) == CardOf(card, key) <==> IsClubCard(env, doc, card, key)
  {
    hide Canonical, AllSafe, IsKey32, CodePoints, IsIssued, B64ToBytes, FieldOf, Ascii, Codes, Utf8;
    hide NamesMember, Dated, Serialled, Keyed, SignedWith, HasField;
    CanonicalDefined(card);
    FieldExactly(doc, "card", card);
    FieldsExactly(env, card);
    forall sig ensures CardSignature(env, doc) == Some(sig) <==> SignedWith(env, doc, sig) { SignatureExactly(env, doc, sig); }
    if VerifyCard(env, doc) == CardOf(card, key) {
      assert SignedWith(env, doc, CardSignature(env, doc).value);
    }
  }

  /** Why a document is refused, in the order of the reasons. */
  lemma RefusedExactly(env: Env, doc: Json)
    ensures var whole := exists card, sig :: HasField(doc, "card", card) && card.JsObject? && SignedWith(env, doc, sig);
            var complete := exists card, sig, key ::
              HasField(doc, "card", card) && card.JsObject? && SignedWith(env, doc, sig)
              && AllSafe(card) && Keyed(env, card, key) && NamesMember(card) && Dated(card) && Serialled(card);
            && (VerifyCard(env, doc) == CardMalformed <==> !whole)
            && (VerifyCard(env, doc) == CardInvalid <==> whole && !complete)
            && (VerifyCard(env, doc) == NotSignedByClub <==> complete && !exists card, key :: IsClubCard(env, doc, card, key))
  {
    hide Canonical, AllSafe, IsKey32, CodePoints, IsIssued, B64ToBytes, FieldOf, Ascii, Codes, Utf8;
    hide NamesMember, Dated, Serialled, Keyed, SignedWith, HasField;
    forall card ensures FieldOf(doc, "card") == Some(card) <==> HasField(doc, "card", card) { FieldExactly(doc, "card", card); }
    forall sig ensures CardSignature(env, doc) == Some(sig) <==> SignedWith(env, doc, sig) { SignatureExactly(env, doc, sig); }
    forall card, key ensures VerifyCard(env, doc) == CardOf(card, key) <==> IsClubCard(env, doc, card, key) {
      AcceptedExactly(env, doc, card, key);
    }
    if FieldOf(doc, "card").Some? {
      CanonicalDefined(FieldOf(doc, "card").value);
      FieldsExactly(env, FieldOf(doc, "card").value);
    }
  }

  /** The signed bytes are the card: two cards signed over the same bytes are the same, field for field. */
  lemma SignedBytesNameTheCard(a: Json, b: Json)
    requires Canonical(a).Some? && Canonical(b).Some?
    requires Utf8(Canonical(a).value) == Utf8(Canonical(b).value)
    ensures a == b
  {
    hide Canonical, Utf8;
    Utf8Injective(Canonical(a).value, Canonical(b).value);
    CanonicalInjective(a, b);
  }

  /** Every message the club's key verifies is the canonical form of a card the club issued. */
  ghost predicate OnlyIssued(env: Env, issued: set<Json>) {
    forall msg, sig :: env.verify(env.clubKey, msg, sig) ==>
      exists card :: card in issued && Canonical(card).Some? && msg == Utf8(Canonical(card).value)
  }

  /** A card that passes is one the club issued, unaltered: no field changed, dropped or bolted on. */
  lemma OnlyIssuedCardsPass(env: Env, issued: set<Json>, doc: Json, card: Json, key: string)
    requires OnlyIssued(env, issued) && VerifyCard(env, doc) == CardOf(card, key)
    ensures card in issued && HasText(card, "member_verify_key", key)
  {
    hide Canonical, Utf8, VerifyCard, HasText, Codes;
    AcceptedExactly(env, doc, card, key);
    var sig :| SignedWith(env, doc, sig) && ClubSigned(env, card, sig);
    var msg := Utf8(Canonical(card).value);
    var c :| c in issued && Canonical(c).Some? && msg == Utf8(Canonical(c).value);
    SignedBytesNameTheCard(card, c);
  }

  /** A field the club did not sign never rides on an old signature. */
  lemma BoltedFieldIsNotCovered(card: Json, name: Name, value: Json)
    requires card.JsObject? && Canonical(card).Some? && (name in card.members ==> card.members[name] != value)
    ensures var altered := JsObject(card.members[name := value]);
            Canonical(altered).None? || Utf8(Canonical(altered).value) != Utf8(Canonical(card).value)
  {
    hide Canonical, Utf8;
    var altered := JsObject(card.members[name := value]);
    assert altered.members[name] == value;
    if Canonical(altered).Some? && Utf8(Canonical(altered).value) == Utf8(Canonical(card).value) {
      SignedBytesNameTheCard(altered, card);
    }
  }

  /** Behind an opened member gate: a card the club's key signed, and a request signed with the key on it. */
  ghost predicate Admitted(env: Env, req: Request, key: string, now: nat, card: Json) {
    && CheckHeaders(env, req, req.memberSig, key, now) == Genuine
    && exists raw, doc :: B64ToBytes(env, req.card) == Some(raw) && env.parseCard(raw) == Some(doc)
                          && IsClubCard(env, doc, card, key)
  }

  /** The gate opens for a member key exactly when the request carries such a card, within the header's size. */
  lemma GateMeansClubCard(env: Env, req: Request, key: string, now: nat)
    ensures MemberGate(env, req, now) == ByMember(key) <==>
              env.clubKey != "" && req.card != "" && |req.card| <= MAX_CARD_HEADER
              && exists card :: Admitted(env, req, key, now, card)
  {
    hide VerifyCard, IsClubCard, CheckHeaders, B64ToBytes;
    if MemberGate(env, req, now) == ByMember(key) {
      var raw := B64ToBytes(env, req.card).value;
      var doc := env.parseCard(raw).value;
      var card := VerifyCard(env, doc).card;
      AcceptedExactly(env, doc, card, key);
      assert Admitted(env, req, key, now, card);
    }
    if card :| env.clubKey != "" && req.card != "" && |req.card| <= MAX_CARD_HEADER && Admitted(env, req, key, now, card) {
      var raw, doc :| B64ToBytes(env, req.card) == Some(raw) && env.parseCard(raw) == Some(doc)
                      && IsClubCard(env, doc, card, key);
      AcceptedExactly(env, doc, card, key);
    }
  }

  /** With a club key set, a submit gets past the gate only for a key on a card the club issued. */
  lemma GateNeedsIssuedCard(env: Env, issued: set<Json>, req: Request, key: string, now: nat)
    requires OnlyIssued(env, issued) && MemberGate(env, req, now) == ByMember(key)
    ensures exists card :: card in issued && HasText(card, "member_verify_key", key)
  {
    hide VerifyCard, CheckHeaders, B64ToBytes, OnlyIssued, HasText, IsClubCard;
    GateMeansClubCard(env, req, key, now);
    var card :| Admitted(env, req, key, now, card);
    var raw, doc :| B64ToBytes(env, req.card) == Some(raw) && env.parseCard(raw) == Some(doc)
                    && IsClubCard(env, doc, card, key);
    AcceptedExactly(env, doc, card, key);
    OnlyIssuedCardsPass(env, issued, doc, card, key);
  }
}
