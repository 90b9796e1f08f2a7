/** Media encryption around AES-128-ECB: key lookup in message payloads, PKCS#7 padding, sizes, round trip. */
module MediaCipher {
  import opened Options
  import opened AesKeyCodec

  /******* Finding the key *******/

  datatype Payload = Mapping(fields: map<string, FieldValue>, media: Option<Payload>) | NotMapping

  const HEX_FIELDS := ["aeskey", "aes_key_hex"]
  const BASE64_FIELDS := ["aes_key", "aesKey", "encrypt_key", "encryptKey"]

  datatype Candidate = Candidate(value: FieldValue, preferHex: bool)

  function FieldCandidates(fields: map<string, FieldValue>, names: seq<string>, preferHex: bool): seq<Candidate> {
    seq(|names|, i requires 0 <= i < |names| =>
      Candidate(if names[i] in fields then fields[names[i]] else OtherValue, preferHex))
  }

  /** Everything that may hold a key, in order of preference: the payload's own fields, then its media object. */
  function Candidates(p: Payload): seq<Candidate> {
    match p
    case NotMapping => []
    case Mapping(fields, media) =>
      FieldCandidates(fields, HEX_FIELDS, true) + FieldCandidates(fields, BASE64_FIELDS, false)
      + (if media.Some? then Candidates(media.value) else [])
  }

  function AllCandidates(payloads: seq<Payload>): seq<Candidate> {
    if payloads == [] then [] else Candidates(payloads[0]) + AllCandidates(payloads[1..])
  }

  function FirstKey(cs: seq<Candidate>): Option<Bytes> {
    if cs == [] then None
    else
      var key := ParseCandidate(cs[0].value, cs[0].preferHex);
      if key.Some? then key else FirstKey(cs[1..])
  }

  lemma {:induction false} FirstKeyConcat(a: seq<Candidate>, b: seq<Candidate>)
    ensures FirstKey(a + b) == if FirstKey(a).Some? then FirstKey(a) else FirstKey(b)
  {
    hide ParseCandidate;
    if a == [] {
      assert a + b == b;
    } else {
      assert (a + b)[1..] == a[1..] + b;
      FirstKeyConcat(a[1..], b);
    }
  }

  method ResolveFields(fields: map<string, FieldValue>, names: seq<string>, preferHex: bool)
    returns (key: Option<Bytes>)
    ensures key == FirstKey(FieldCandidates(fields, names, preferHex))
  {
    hide ParseCandidate;
    ghost var cs := FieldCandidates(fields, names, preferHex);
    for i := 0 to |names|
      invariant FirstKey(cs) == FirstKey(cs[i..])
    {
      key := ParseCandidate(if names[i] in fields then fields[names[i]] else OtherValue, preferHex);
      if key.Some? { return; }
      assert cs[i..][1..] == cs[i + 1..];
    }
    key := None;
  }

  method ResolveOne(p: Payload) returns (key: Option<Bytes>)
    ensures key == FirstKey(Candidates(p))
    decreases p
  {
    if p.NotMapping? { return None; }
    var hex, base64 := FieldCandidates(p.fields, HEX_FIELDS, true), FieldCandidates(p.fields, BASE64_FIELDS, false);
    FirstKeyConcat(hex, base64);
    FirstKeyConcat(hex + base64, if p.media.Some? then Candidates(p.media.value) else []);
    key := ResolveFields(p.fields, HEX_FIELDS, true);
    if key.Some? { return; }
    key := ResolveFields(p.fields, BASE64_FIELDS, false);
    if key.Some? { return; }
    if p.media.Some? {
      key := ResolveOne(p.media.value);
    }
  }

  /** The first candidate that parses, over all payloads in order. */
  method ResolveMediaAesKey(payloads: seq<Payload>) returns (key: Option<Bytes>)
    ensures key == FirstKey(AllCandidates(payloads))
  {
    for i := 0 to |payloads|
      invariant FirstKey(AllCandidates(payloads)) == FirstKey(AllCandidates(payloads[i..]))
    {
      FirstKeyConcat(Candidates(payloads[i]), AllCandidates(payloads[i..][1..]));
      key := ResolveOne(payloads[i]);
      if key.Some? { return; }
      assert payloads[i..][1..] == payloads[i + 1..];
    }
    key := None;
  }

  /** A media object built by the sender yields the sender's key to any receiver. */
  lemma OutboundKeyResolves(key: Bytes, item: map<string, FieldValue>, media: map<string, FieldValue>)
    requires |key| == KEY_SIZE
    requires forall name :: name in HEX_FIELDS || name in BASE64_FIELDS ==> name !in item && name !in media
    ensures
      var sent := Mapping(item, Some(Mapping(media["aes_key" := Str(EncodeOutboundKey(key))], None)));
      FirstKey(Candidates(sent)) == Some(key)
  {
    hide ParseCandidate, EncodeOutboundKey, Candidates, FirstKey, FieldCandidates;
    var fields := media["aes_key" := Str(EncodeOutboundKey(key))];
    NoKeyInFields(item, HEX_FIELDS, true);
    NoKeyInFields(item, BASE64_FIELDS, false);
    NoKeyInFields(fields, HEX_FIELDS, true);
    OutboundField(fields, key);
    CandidatesOf(item, Some(Mapping(fields, None)));
    CandidatesOf(fields, None);
  }

  lemma CandidatesOf(fields: map<string, FieldValue>, media: Option<Payload>)
    ensures
      var hex := FirstKey(FieldCandidates(fields, HEX_FIELDS, true));
      var base64 := FirstKey(FieldCandidates(fields, BASE64_FIELDS, false));
      FirstKey(Candidates(Mapping(fields, media))) ==
      if hex.Some? then hex
      else if base64.Some? then base64
      else if media.Some? then FirstKey(Candidates(media.value))
      else None
  {
    var hex, base64 := FieldCandidates(fields, HEX_FIELDS, true), FieldCandidates(fields, BASE64_FIELDS, false);
    FirstKeyConcat(hex, base64);
    FirstKeyConcat(hex + base64, if media.Some? then Candidates(media.value) else []);
  }

  /** The key a field holds, if any. */
  function KeyIn(fields: map<string, FieldValue>, name: string): Option<Bytes> {
    if name in fields then ParseCandidate(fields[name], true) else None
  }

  function OrNext(key: Option<Bytes>, next: Option<Bytes>): Option<Bytes> {
    if key.Some? then key else next
  }

  lemma {:induction false} FieldsInOrder(fields: map<string, FieldValue>, names: seq<string>, preferHex: bool)
    ensures names == [] ==> FirstKey(FieldCandidates(fields, names, preferHex)) == None
    ensures names != [] ==>
      FirstKey(FieldCandidates(fields, names, preferHex)) ==
      OrNext(KeyIn(fields, names[0]), FirstKey(FieldCandidates(fields, names[1..], preferHex)))
  {
    hide ParseCandidate;
    if names != [] {
      assert FieldCandidates(fields, names, preferHex)[1..] == FieldCandidates(fields, names[1..], preferHex);
      if names[0] in fields {
        PreferenceNeverMatters(fields[names[0]]);
      } else {
        OtherIsNoKey(preferHex);
      }
    }
  }

  lemma OtherIsNoKey(preferHex: bool)
    ensures ParseCandidate(OtherValue, preferHex) == None
  {
  }

  /** The key of a payload: the first of its six fields that holds one, then whatever its media object yields. */
  lemma KeyOfPayload(fields: map<string, FieldValue>, media: Option<Payload>)
    ensures FirstKey(Candidates(Mapping(fields, media))) ==
            OrNext(KeyIn(fields, "aeskey"),
              OrNext(KeyIn(fields, "aes_key_hex"),
                OrNext(KeyIn(fields, "aes_key"),
                  OrNext(KeyIn(fields, "aesKey"),
                    OrNext(KeyIn(fields, "encrypt_key"),
                      OrNext(KeyIn(fields, "encryptKey"),
                        if media.Some? then FirstKey(Candidates(media.value)) else None))))))
    ensures FirstKey(Candidates(NotMapping)) == None
  {
    hide ParseCandidate, FirstKey, FieldCandidates, Candidates, KeyIn;
    CandidatesOf(fields, media);
    HexFields(fields);
    Base64Fields(fields);
    NoCandidates();
  }

  lemma NoCandidates()
    ensures FirstKey(Candidates(NotMapping)) == None && FirstKey(AllCandidates([])) == None
  {
  }

  lemma HexFields(fields: map<string, FieldValue>)
    ensures FirstKey(FieldCandidates(fields, HEX_FIELDS, true)) ==
            OrNext(KeyIn(fields, "aeskey"), KeyIn(fields, "aes_key_hex"))
  {
    hide ParseCandidate, FirstKey, FieldCandidates, KeyIn;
    FieldsInOrder(fields, HEX_FIELDS, true);
    assert HEX_FIELDS[1..] == ["aes_key_hex"];
    FieldsInOrder(fields, ["aes_key_hex"], true);
    assert ["aes_key_hex"][1..] == [];
    FieldsInOrder(fields, [], true);
  }

  lemma Base64Fields(fields: map<string, FieldValue>)
    ensures FirstKey(FieldCandidates(fields, BASE64_FIELDS, false)) ==
            OrNext(KeyIn(fields, "aes_key"),
              OrNext(KeyIn(fields, "aesKey"), OrNext(KeyIn(fields, "encrypt_key"), KeyIn(fields, "encryptKey"))))
  {
    hide ParseCandidate, FirstKey, FieldCandidates, KeyIn;
    var names := BASE64_FIELDS;
    FieldsInOrder(fields, names, false);
    FieldsInOrder(fields, names[1..], false);
    FieldsInOrder(fields, names[2..], false);
    FieldsInOrder(fields, names[3..], false);
    FieldsInOrder(fields, names[4..], false);
    assert names[1..][1..] == names[2..] && names[2..][1..] == names[3..] && names[3..][1..] == names[4..];
  }

  /** Payloads are asked in turn, and the first key ends the search. */
  lemma PayloadsInOrder(payload: Payload, rest: seq<Payload>)
    ensures FirstKey(AllCandidates([payload] + rest)) ==
            OrNext(FirstKey(Candidates(payload)), FirstKey(AllCandidates(rest)))
  {
    hide FirstKey, Candidates;
    assert ([payload] + rest)[1..] == rest;
    FirstKeyConcat(Candidates(payload), AllCandidates(rest));
  }

  lemma {:induction false} NoKeyInFields(fields: map<string, FieldValue>, names: seq<string>, preferHex: bool)
    requires forall i :: 0 <= i < |names| ==> names[i] !in fields
    ensures FirstKey(FieldCandidates(fields, names, preferHex)) == None
  {
    if names != [] {
      NoKeyInFields(fields, names[1..], preferHex);
      assert FieldCandidates(fields, names, preferHex)[1..] == FieldCandidates(fields, names[1..], preferHex);
    }
  }

  lemma OutboundField(fields: map<string, FieldValue>, key: Bytes)
    requires |key| == KEY_SIZE && "aes_key" in fields && fields["aes_key"] == Str(EncodeOutboundKey(key))
    ensures FirstKey(FieldCandidates(fields, BASE64_FIELDS, false)) == Some(key)
  {
    hide ParseCandidate, Render;
    ParseInvertsRender(key, Base64OfHexForm(false, false, true), false);
    assert FieldCandidates(fields, BASE64_FIELDS, false)[0] == Candidate(fields["aes_key"], false);
  }

  /******* Padding (section 6.3 of RFC 5652) *******/

  const BLOCK: nat := 16

  type Block = b: Bytes | |b| == BLOCK witness seq(BLOCK, i => 0)

  function Fill(n: Byte): (b: Bytes)
    ensures |b| == n
  {
    seq(n, i => n)
  }

  function Pad(b: Bytes): Bytes {
    b + Fill(BLOCK - |b| % BLOCK)
  }

  function Unpad(p: Bytes): Option<Bytes> {
    if p == [] || |p| % BLOCK != 0 then None
    else
      var n := p[|p| - 1];
      if 1 <= n <= BLOCK && p[|p| - n..] == Fill(n) then Some(p[..|p| - n]) else None
  }

  /** Unpadding succeeds exactly on padded text and returns what was padded. */
  lemma UnpadIff(p: Bytes, b: Bytes)
    ensures Unpad(p) == Some(b) <==> p == Pad(b)
  {
    if p == Pad(b) {
      var n := BLOCK - |b| % BLOCK;
      assert p[|p| - 1] == n && p[|p| - n..] == Fill(n) && p[..|p| - n] == b;
    }
    if Unpad(p) == Some(b) {
      var n := p[|p| - 1];
      assert p == b + Fill(n);
      assert |b| % BLOCK == (BLOCK - n) % BLOCK;
    }
  }

  /** Padding fills up to whole blocks, always with something, and every padding byte tells how many there are. */
  lemma PadTellsItsLength(b: Bytes)
    ensures
      var p := Pad(b);
      && b <= p && |p| % 16 == 0 && 1 <= |p| - |b| <= 16
      && forall i :: |b| <= i < |p| ==> p[i] == |p| - |b|
  {
    var n := BLOCK - |b| % BLOCK;
    assert (|b| + n) % BLOCK == 0;
  }

  function EncryptedSize(plaintext: nat): nat {
    (plaintext / 16 + 1) * 16
  }

  /******* ECB over an abstract block cipher *******/

  function MapBlocks(b: Bytes, f: Block -> Block): (r: Bytes)
    requires |b| % BLOCK == 0
    ensures |r| == |b|
  {
    if b == [] then [] else f(b[..BLOCK]) + MapBlocks(b[BLOCK..], f)
  }

  /** Blocks are mapped one by one, each where it is. */
  lemma {:induction false} BlockAt(b: Bytes, f: Block -> Block, k: nat)
    requires |b| % BLOCK == 0 && BLOCK * (k + 1) <= |b|
    ensures MapBlocks(b, f)[BLOCK * k..BLOCK * (k + 1)] == f(b[BLOCK * k..BLOCK * (k + 1)])
  {
    if k > 0 {
      var rest, out := b[BLOCK..], MapBlocks(b[BLOCK..], f);
      BlockAt(rest, f, k - 1);
      assert rest[BLOCK * (k - 1)..BLOCK * k] == b[BLOCK * k..BLOCK * (k + 1)];
      assert out[BLOCK * (k - 1)..BLOCK * k] == MapBlocks(b, f)[BLOCK * k..BLOCK * (k + 1)];
    }
  }

  function Encrypt(content: Bytes, enc: Block -> Block): Bytes {
    MapBlocks(Pad(content), enc)
  }

  function Decrypt(content: Bytes, dec: Block -> Block): Option<Bytes> {
    if |content| % BLOCK != 0 then None else Unpad(MapBlocks(content, dec))
  }

  ghost predicate Undoes(f: Block -> Block, g: Block -> Block) {
    forall b: Block :: f(g(b)) == b
  }

  lemma {:induction false} MapBlocksUndone(b: Bytes, f: Block -> Block, g: Block -> Block)
    requires |b| % BLOCK == 0 && Undoes(f, g)
    ensures MapBlocks(MapBlocks(b, g), f) == b
  {
    if b != [] {
      var c := MapBlocks(b, g);
      assert c[..BLOCK] == g(b[..BLOCK]) && c[BLOCK..] == MapBlocks(b[BLOCK..], g);
      MapBlocksUndone(b[BLOCK..], f, g);
      assert b == b[..BLOCK] + b[BLOCK..];
    }
  }

  /** Decrypting gives back `b` exactly for the ciphertext of `b`, whose size is the announced one. */
  lemma DecryptIff(content: Bytes, b: Bytes, enc: Block -> Block, dec: Block -> Block)
    requires Undoes(dec, enc) && Undoes(enc, dec)
    ensures Decrypt(content, dec) == Some(b) <==> content == Encrypt(b, enc)
    ensures |Encrypt(b, enc)| == EncryptedSize(|b|)
  {
    MapBlocksUndone(Pad(b), dec, enc);
    if |content| % BLOCK == 0 {
      MapBlocksUndone(content, enc, dec);
      UnpadIff(MapBlocks(content, dec), b);
    }
  }
}
