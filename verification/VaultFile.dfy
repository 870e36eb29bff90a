/** The vault file: its header codec, the place where the ciphertext starts, and the pipeline around them. */
module VaultFile {
  import opened Bytes

  const MAGIC: seq<Byte> := [84, 83, 86, 65, 85, 76, 84, 49]   // "TSVAULT1"
  const SALT_LENGTH := 32
  const IV_LENGTH := 16
  const AUTH_TAG_LENGTH := 16
  const HMAC_LENGTH := 32
  const HEADER_FIXED_SIZE := 8 + SALT_LENGTH + IV_LENGTH + AUTH_TAG_LENGTH + HMAC_LENGTH + 8 + 2

  datatype Header = Header(salt: seq<Byte>, iv: seq<Byte>, authTag: seq<Byte>, hmac: seq<Byte>,
                           originalSize: nat, originalName: string)

  datatype Result<+T> = Success(value: T) | TooSmall | BadMagic | OutOfRange | BadHmac

  /** UTF-8 and the cryptographic functions. */
  datatype World = World(
    encode: string -> seq<Byte>,
    decode: seq<Byte> -> string,
    zip: seq<Byte> -> seq<Byte>,
    unzip: seq<Byte> -> seq<Byte>,
    encryptionKey: (string, seq<Byte>) -> seq<Byte>,
    hmacKey: (string, seq<Byte>) -> seq<Byte>,
    cipher: (seq<Byte>, seq<Byte>, seq<Byte>) -> seq<Byte>,
    tag: (seq<Byte>, seq<Byte>, seq<Byte>) -> seq<Byte>,
    decipher: (seq<Byte>, seq<Byte>, seq<Byte>, seq<Byte>) -> seq<Byte>,
    hmac: (seq<Byte>, seq<Byte>) -> seq<Byte>)

  ghost predicate FixedLengths(h: Header) {
    |h.salt| == SALT_LENGTH && |h.iv| == IV_LENGTH && |h.authTag| == AUTH_TAG_LENGTH && |h.hmac| == HMAC_LENGTH
  }

  // ---------------------------------------------------------------- the header

  /** Size and name length fit their fields; otherwise the buffer's writers throw. */
  predicate Fits(w: World, h: Header) {
    h.originalSize / TWO_32 < TWO_32 && |w.encode(h.originalName)| < TWO_16
  }

  function HeaderBytes(w: World, h: Header): seq<Byte>
    requires Fits(w, h)
  {
    MAGIC + h.salt + h.iv + h.authTag + h.hmac
    + U32(h.originalSize / TWO_32) + U32(h.originalSize % TWO_32)
    + U16(|w.encode(h.originalName)|) + w.encode(h.originalName)
  }

  /** `copy` and the integer writers: `bytes` go into the buffer at `offset`. */
  method Put(buf: array<Byte>, offset: nat, bytes: seq<Byte>) returns (next: nat)
    requires offset + |bytes| <= buf.Length
    modifies buf
    ensures next == offset + |bytes|
    ensures buf[..next] == old(buf[..offset]) + bytes
  {
    for i := 0 to |bytes|
      invariant buf[..offset] == old(buf[..offset])
      invariant buf[offset..offset+i] == bytes[..i]
    {
      buf[offset + i] := bytes[i];
    }
    next := offset + |bytes|;
    assert buf[..next] == buf[..offset] + buf[offset..next];
  }

  /** Magic bytes, salt, initialisation vector, tag and HMAC, one behind the other. */
  method PutFixedFields(buf: array<Byte>, h: Header) returns (offset: nat)
    requires FixedLengths(h) && buf.Length >= HEADER_FIXED_SIZE
    modifies buf
    ensures offset == 104 && buf[..offset] == MAGIC + h.salt + h.iv + h.authTag + h.hmac
  {
    assert buf[..0] == [] && [] + MAGIC == MAGIC;
    offset := Put(buf, 0, MAGIC);
    offset := Put(buf, offset, h.salt);
    offset := Put(buf, offset, h.iv);
    offset := Put(buf, offset, h.authTag);
    offset := Put(buf, offset, h.hmac);
  }

  method SerializeHeader(w: World, h: Header) returns (result: Result<seq<Byte>>)
    requires FixedLengths(h)
    ensures result == if Fits(w, h) then Success(HeaderBytes(w, h)) else OutOfRange
  {
    var name := w.encode(h.originalName);
    var buf := new Byte[HEADER_FIXED_SIZE + |name|](_ => 0);
    var offset := PutFixedFields(buf, h);
    var high, low := h.originalSize / TWO_32, h.originalSize % TWO_32;
    if high >= TWO_32 { return OutOfRange; }
    offset := Put(buf, offset, U32(high));
    offset := Put(buf, offset, U32(low));
    if |name| >= TWO_16 { return OutOfRange; }
    offset := Put(buf, offset, U16(|name|));
    offset := Put(buf, offset, name);
    assert buf[..offset] == buf[..] == HeaderBytes(w, h);
    return Success(buf[..]);
  }

  /** `subarray`, which stops at the end of the data. */
  function Sub(data: seq<Byte>, from: nat, length: nat): seq<Byte> {
    if from >= |data| then []
    else if from + length >= |data| then data[from..]
    else data[from..from + length]
  }

  function NameLength(data: seq<Byte>): nat
    requires |data| >= HEADER_FIXED_SIZE
  {
    ReadU16(data[112..])
  }

  function NameBytes(data: seq<Byte>): seq<Byte>
    requires |data| >= HEADER_FIXED_SIZE
  {
    Sub(data, HEADER_FIXED_SIZE, NameLength(data))
  }

  function DeserializeHeader(w: World, data: seq<Byte>): Result<Header> {
    if |data| < HEADER_FIXED_SIZE then TooSmall
    else if data[..8] != MAGIC then BadMagic
    else
      var size := ReadU32(data[104..]) * TWO_32 + ReadU32(data[108..]);
      Success(Header(data[8..40], data[40..56], data[56..72], data[72..104], size, w.decode(NameBytes(data))))
  }

  /** The reader recomputes the header's size from the decoded name. */
  function Ciphertext(w: World, data: seq<Byte>, h: Header): seq<Byte> {
    var headerSize := HEADER_FIXED_SIZE + |w.encode(h.originalName)|;
    if headerSize >= |data| then [] else data[headerSize..]
  }

  // ---------------------------------------------------------------- round trip of the codec

  lemma {:induction false} SliceOf(front: seq<Byte>, middle: seq<Byte>, back: seq<Byte>)
    ensures (front + middle + back)[|front|..|front| + |middle|] == middle
    ensures (front + middle + back)[|front|..] == middle + back
  {}

  lemma {:induction false} FieldsOf(w: World, h: Header, rest: seq<Byte>)
    requires FixedLengths(h) && Fits(w, h)
    ensures var data, name := HeaderBytes(w, h) + rest, w.encode(h.originalName);
            && |data| == HEADER_FIXED_SIZE + |name| + |rest|
            && data[..8] == MAGIC && data[8..40] == h.salt && data[40..56] == h.iv
            && data[56..72] == h.authTag && data[72..104] == h.hmac
            && ReadU32(data[104..]) == h.originalSize / TWO_32 && ReadU32(data[108..]) == h.originalSize % TWO_32
            && NameLength(data) == |name| && NameBytes(data) == name
            && data[HEADER_FIXED_SIZE + |name|..] == rest
  {
    var name := w.encode(h.originalName);
    var high, low, count := U32(h.originalSize / TWO_32), U32(h.originalSize % TWO_32), U16(|name|);
    var data := HeaderBytes(w, h) + rest;
    var fixed := MAGIC + h.salt + h.iv + h.authTag + h.hmac;
    var afterCount := name + rest;
    var afterLow := count + afterCount;
    var afterHigh := low + afterLow;
    assert data[104..] == high + afterHigh by { assert data == fixed + (high + afterHigh); }
    assert data[108..] == afterHigh by { assert data[108..] == data[104..][4..]; }
    assert data[112..] == afterLow by { assert data[112..] == data[108..][4..]; }
    ReadBackU32(h.originalSize / TWO_32, afterHigh);
    ReadBackU32(h.originalSize % TWO_32, afterLow);
    ReadBackU16(|name|, afterCount);
    SliceOf(fixed + high + low + count, name, rest);
    assert data == fixed + high + low + count + name + rest;
  }

  /** Reading a written header gives it back, up to what UTF-8 does to the name, and cuts off the ciphertext
      exactly when the name read has as many bytes as the name written. */
  lemma {:induction false} HeaderRoundTrip(w: World, h: Header, ciphertext: seq<Byte>)
    requires FixedLengths(h) && Fits(w, h)
    ensures var data, name := HeaderBytes(w, h) + ciphertext, w.decode(w.encode(h.originalName));
            var h' := h.(originalName := name);
            && DeserializeHeader(w, data) == Success(h')
            && (Ciphertext(w, data, h') == ciphertext <==>
                  || |w.encode(name)| == |w.encode(h.originalName)|
                  || (ciphertext == [] && |w.encode(name)| > |w.encode(h.originalName)|))
  {
    FieldsOf(w, h, ciphertext);
    var data, name := HeaderBytes(w, h) + ciphertext, w.decode(w.encode(h.originalName));
    var size := h.originalSize;
    assert size / TWO_32 * TWO_32 + size % TWO_32 == size;
    var h' := h.(originalName := name);
    var cut := HEADER_FIXED_SIZE + |w.encode(name)|;
    assert |Ciphertext(w, data, h')| == if cut >= |data| then 0 else |data| - cut;
  }

  /** What is behind the stored name; nothing if the file ends within the name. */
  function BehindName(data: seq<Byte>): seq<Byte>
    requires |data| >= HEADER_FIXED_SIZE
  {
    Sub(data, HEADER_FIXED_SIZE + NameLength(data), |data|)
  }

  /** In any file that is accepted the reader finds the ciphertext where the stored length says it is exactly when
      the stored name has the length of what it decodes to, or nothing follows the name and what it decodes to is
      longer; bytes that are not UTF-8 can move it. */
  lemma {:induction false} StoredLengthHonouredIff(w: World, data: seq<Byte>)
    requires DeserializeHeader(w, data).Success?
    ensures var stored, decoded := |NameBytes(data)|, |w.encode(w.decode(NameBytes(data)))|;
            Ciphertext(w, data, DeserializeHeader(w, data).value) == BehindName(data)
            <==> decoded == stored || (BehindName(data) == [] && decoded > stored)
  {
    var h := DeserializeHeader(w, data).value;
    var stored, cut := HEADER_FIXED_SIZE + |NameBytes(data)|, HEADER_FIXED_SIZE + |w.encode(h.originalName)|;
    assert |Ciphertext(w, data, h)| == if cut >= |data| then 0 else |data| - cut;
    assert |BehindName(data)| == |data| - stored;
  }

  // ---------------------------------------------------------------- the pipeline

  ghost predicate Inverses(w: World) {
    && (forall b: seq<Byte> :: w.unzip(w.zip(b)) == b)
    && (forall b: seq<Byte>, key: seq<Byte>, iv: seq<Byte> ::
          w.decipher(w.cipher(b, key, iv), key, iv, w.tag(b, key, iv)) == b && |w.tag(b, key, iv)| == AUTH_TAG_LENGTH)
    && (forall b: seq<Byte>, key: seq<Byte> :: |w.hmac(b, key)| == HMAC_LENGTH)
  }

  /** The content of the vault file `encryptFile` writes; salt and initialisation vector are random. */
  function Encrypted(w: World, name: string, data: seq<Byte>, password: string, salt: seq<Byte>,
                     iv: seq<Byte>): Result<seq<Byte>> {
    var key, compressed := w.encryptionKey(password, salt), w.zip(data);
    var ciphertext := w.cipher(compressed, key, iv);
    var h := Header(salt, iv, w.tag(compressed, key, iv), w.hmac(ciphertext, w.hmacKey(password, salt)), |data|, name);
    if Fits(w, h) then Success(HeaderBytes(w, h) + ciphertext) else OutOfRange
  }

  /** The restored name and content. */
  function DecryptFile(w: World, vault: seq<Byte>, password: string): Result<(string, seq<Byte>)> {
    match DeserializeHeader(w, vault)
    case Success(h) =>
      var ciphertext := Ciphertext(w, vault, h);
      if w.hmac(ciphertext, w.hmacKey(password, h.salt)) != h.hmac then BadHmac
      else
        var compressed := w.decipher(ciphertext, w.encryptionKey(password, h.salt), h.iv, h.authTag);
        Success((h.originalName, w.unzip(compressed)))
    case TooSmall => TooSmall
    case BadMagic => BadMagic
    case OutOfRange => OutOfRange
    case BadHmac => BadHmac
  }

  /** A file is decrypted exactly when it is long enough, begins with the magic bytes, and its HMAC field is the HMAC of
      everything behind the name, under the key derived from the password and the salt in the file; what comes out is
      that part deciphered and unpacked.  Anything else is rejected, for the first reason that applies. */
  lemma {:induction false} DecryptsIffAuthentic(w: World, vault: seq<Byte>, password: string)
    ensures var result := DecryptFile(w, vault, password);
            && (result == TooSmall <==> |vault| < 114)
            && (result == BadMagic <==> |vault| >= 114 && vault[..8] != MAGIC)
            && (|vault| >= 114 && vault[..8] == MAGIC ==>
                  var name := w.decode(NameBytes(vault));
                  var start := 114 + |w.encode(name)|;
                  var ciphertext := if start < |vault| then vault[start..] else [];
                  result == if vault[72..104] != w.hmac(ciphertext, w.hmacKey(password, vault[8..40])) then BadHmac
                            else Success((name, w.unzip(w.decipher(ciphertext, w.encryptionKey(password, vault[8..40]),
                                                                   vault[40..56], vault[56..72])))))
  {}

  /** Whatever can be encrypted is decrypted to the same name and content, if the name survives UTF-8. */
  lemma {:induction false} DecryptsWhatWasEncrypted(w: World, name: string, data: seq<Byte>, password: string,
                                                    salt: seq<Byte>, iv: seq<Byte>)
    requires Inverses(w) && |salt| == SALT_LENGTH && |iv| == IV_LENGTH
    requires w.decode(w.encode(name)) == name
    ensures var vault := Encrypted(w, name, data, password, salt, iv);
            vault.Success? ==> DecryptFile(w, vault.value, password) == Success((name, data))
    ensures Encrypted(w, name, data, password, salt, iv).Success? <==>
              |data| / TWO_32 < TWO_32 && |w.encode(name)| < TWO_16
  {
    var key, compressed := w.encryptionKey(password, salt), w.zip(data);
    var ciphertext := w.cipher(compressed, key, iv);
    var h := Header(salt, iv, w.tag(compressed, key, iv), w.hmac(ciphertext, w.hmacKey(password, salt)), |data|, name);
    if Fits(w, h) {
      HeaderRoundTrip(w, h, ciphertext);
      assert h.(originalName := name) == h;
    }
  }

  /** `encryptFile`: what it writes is decrypted again under the same password. */
  method EncryptFile(w: World, name: string, data: seq<Byte>, password: string, salt: seq<Byte>, iv: seq<Byte>)
    returns (result: Result<seq<Byte>>)
    requires Inverses(w) && |salt| == SALT_LENGTH && |iv| == IV_LENGTH
    ensures result == Encrypted(w, name, data, password, salt, iv)
    ensures result.Success? <==> |data| / TWO_32 < TWO_32 && |w.encode(name)| < TWO_16
    ensures result.Success? && w.decode(w.encode(name)) == name ==>
              DecryptFile(w, result.value, password) == Success((name, data))
  {
    if w.decode(w.encode(name)) == name { DecryptsWhatWasEncrypted(w, name, data, password, salt, iv); }
    var compressed := w.zip(data);
    var key := w.encryptionKey(password, salt);
    var ciphertext, tag := w.cipher(compressed, key, iv), w.tag(compressed, key, iv);
    var h := Header(salt, iv, tag, w.hmac(ciphertext, w.hmacKey(password, salt)), |data|, name);
    var header := SerializeHeader(w, h);
    if header.OutOfRange? { return OutOfRange; }
    return Success(header.value + ciphertext);
  }
}
