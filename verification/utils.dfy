/**
 * cypher/utils.py: hashing, canonical JSON, the signed transaction payload
 * and address derivation. SHA-256, the JSON serialiser, UTF-8 encoding and
 * signature verification are library code the model does not look into;
 * they are the fields of a `Primitives` value that every operation takes.
 */
module Utils {
  import opened PyBuiltins

  /**
   * A Python float: an IEEE 754 double, identified by its 64-bit pattern.
   * The ledger never computes with one; it only serialises it.
   */
  type Float64 = bits: int | 0 <= bits < 0x1_0000_0000_0000_0000

  /**
   * A JSON value as Python's `json` module serialises it. Objects are maps:
   * `deterministic_dumps` sorts keys, so the order in which a dict was built
   * never reaches the output.
   */
  datatype Json =
    | JNull
    | JInt(i: int)
    | JFloat(f: Float64)
    | JStr(s: string)
    | JArray(items: seq<Json>)
    | JObject(fields: map<string, Json>)

  /** The library functions the ledger calls but does not define. */
  datatype Primitives = Primitives(
    /** `hashlib.sha256(data).hexdigest()` */
    sha256: seq<byte> -> string,
    /** `json.dumps(obj, sort_keys=True, separators=(",", ":"))` */
    dumps: Json -> string,
    /** `str.encode()` */
    encode: string -> seq<byte>,
    /** `verify_signature(pubkey, signature, sender, recipient, amount, nonce)` */
    verifySignature: (string, string, string, string, int, int) -> bool)

  /** What `hexdigest()` always returns: 64 lower-case hexadecimal characters. */
  predicate IsHexDigest(h: string) {
    |h| == 64 && forall i :: 0 <= i < |h| ==> h[i] in "0123456789abcdef"
  }

  /** The bytes that are hashed and signed: `deterministic_dumps(obj).encode()`. */
  function CanonicalBytes(p: Primitives, obj: Json): seq<byte> {
    p.encode(p.dumps(obj))
  }

  // ---------------------------------------------------------------------
  // tx_message
  // ---------------------------------------------------------------------

  /** The dict that `tx_message` serialises. */
  function TxPayload(sender: string, recipient: string, amount: int, nonce: int): (j: Json)
    ensures j.JObject? && j.fields.Keys == {"sender", "recipient", "amount", "nonce"}
    ensures "pubkey" !in j.fields && "signature" !in j.fields
    ensures j.fields["sender"] == JStr(sender) && j.fields["recipient"] == JStr(recipient)
    ensures j.fields["amount"] == JInt(amount) && j.fields["nonce"] == JInt(nonce)
  {
    JObject(map["sender" := JStr(sender), "recipient" := JStr(recipient),
                "amount" := JInt(amount), "nonce" := JInt(nonce)])
  }

  /** `tx_message(sender, recipient, amount, nonce)` */
  function TxMessage(p: Primitives, sender: string, recipient: string, amount: int, nonce: int): seq<byte> {
    CanonicalBytes(p, TxPayload(sender, recipient, amount, nonce))
  }

  /**
   * The signed payload binds all four fields: two payloads are the same JSON
   * value exactly when sender, recipient, amount and nonce all agree.
   */
  lemma TxPayloadBindsFields(s1: string, r1: string, a1: int, n1: int, s2: string, r2: string, a2: int, n2: int)
    ensures TxPayload(s1, r1, a1, n1) == TxPayload(s2, r2, a2, n2)
        <==> s1 == s2 && r1 == r2 && a1 == a2 && n1 == n2
  {
    var j1, j2 := TxPayload(s1, r1, a1, n1), TxPayload(s2, r2, a2, n2);
    if j1 == j2 {
      assert j1.fields["sender"] == j2.fields["sender"];
      assert j1.fields["recipient"] == j2.fields["recipient"];
      assert j1.fields["amount"] == j2.fields["amount"];
      assert j1.fields["nonce"] == j2.fields["nonce"];
    }
  }

  /**
   * The serialiser and encoder never map two different JSON values to the
   * same bytes, as `json.dumps` with sorted keys and UTF-8 do not.
   */
  ghost predicate InjectiveEncoding(p: Primitives) {
    forall j1, j2 :: CanonicalBytes(p, j1) == CanonicalBytes(p, j2) ==> j1 == j2
  }

  /**
   * With an injective encoding a signature over the message commits to all
   * four fields: two messages are the same bytes exactly when sender,
   * recipient, amount and nonce all agree.
   */
  lemma TxMessageBindsFields(p: Primitives, s1: string, r1: string, a1: int, n1: int,
                             s2: string, r2: string, a2: int, n2: int)
    requires InjectiveEncoding(p)
    ensures TxMessage(p, s1, r1, a1, n1) == TxMessage(p, s2, r2, a2, n2)
        <==> s1 == s2 && r1 == r2 && a1 == a2 && n1 == n2
  {
    TxPayloadBindsFields(s1, r1, a1, n1, s2, r2, a2, n2);
  }

  // ---------------------------------------------------------------------
  // address_from_pubkey_hex
  // ---------------------------------------------------------------------

  /**
   * `address_from_pubkey_hex(pubkey_hex)`: the last 40 characters of the
   * SHA-256 digest of the decoded key bytes. None stands for the ValueError
   * that `bytes.fromhex` raises on a string that is not hex.
   */
  function AddressFromPubkeyHex(p: Primitives, pubkeyHex: string): (r: Option<string>)
    ensures r.Some? <==> FromHex(pubkeyHex).Some?
    ensures r.Some? ==>
      var h := p.sha256(FromHex(pubkeyHex).value);
      |r.value| == Min(40, |h|) && h == h[..|h| - |r.value|] + r.value
  {
    match FromHex(pubkeyHex)
    case None => None
    case Some(key) => Some(TakeLast(p.sha256(key), 40))
  }

  /** With a real 64-character digest, an address is its last 40 characters. */
  lemma AddressIsDigestSuffix(p: Primitives, pubkeyHex: string)
    requires FromHex(pubkeyHex).Some? && IsHexDigest(p.sha256(FromHex(pubkeyHex).value))
    ensures var a := AddressFromPubkeyHex(p, pubkeyHex);
      && a.Some? && |a.value| == 40
      && a.value == p.sha256(FromHex(pubkeyHex).value)[24..]
      && forall i :: 0 <= i < 40 ==> a.value[i] in "0123456789abcdef"
  {
    var h := p.sha256(FromHex(pubkeyHex).value);
    var a := AddressFromPubkeyHex(p, pubkeyHex).value;
    assert h == h[..24] + a;
    assert a == h[24..];
    forall i | 0 <= i < 40 ensures a[i] in "0123456789abcdef" {
      assert a[i] == h[24 + i];
    }
  }

  /**
   * The address is a function of the key BYTES: two spellings of the same key
   * (upper or lower case digits, whitespace between byte pairs) give the
   * same address.
   */
  lemma AddressDependsOnKeyBytes(p: Primitives, pk1: string, pk2: string)
    requires FromHex(pk1) == FromHex(pk2)
    ensures AddressFromPubkeyHex(p, pk1) == AddressFromPubkeyHex(p, pk2)
  {
  }

  /** Every byte string has a hex spelling, and that spelling yields its address. */
  lemma AddressOfHexSpelling(p: Primitives, key: seq<byte>)
    ensures AddressFromPubkeyHex(p, ToHex(key)) == Some(TakeLast(p.sha256(key), 40))
  {
    FromHexToHex(key);
  }
}
