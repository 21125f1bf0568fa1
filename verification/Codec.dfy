/** How a value becomes the record kept in Redis and back: compression.go, crypto.go, the
    first half of Store and the second half of Load in storage.go, and the preparation of
    the decryption keys in caddyfile.go. */
module Codec {
  import opened Common

  newtype byte = x: int | 0 <= x < 256

  type Bytes = seq<byte>

  datatype Error =
    | InvalidKey        // not an AES key length
    | InvalidData       // shorter than a nonce and a tag
    | DecryptionFailure // does not authenticate
    | Corrupt           // the compressed stream is damaged
    | TooLarge          // more than 4 MiB after decompression

  datatype Result<+T> = Ok(value: T) | Err(error: Error) {
    predicate IsFailure() { Err? }
    function PropagateFailure<U>(): Result<U> requires Err? { Err(error) }
    function Extract(): T requires Ok? { value }
  }

  datatype Compression = Uncompressed | Flate | Zlib

  datatype Settings = Settings(compression: Compression, encryptionKey: Bytes, decryptionKeys: seq<Bytes>)

  /** StorageData without its timestamp. */
  datatype Stored = Stored(value: Bytes, size: nat, compression: nat, encryption: nat)

  // ----- library code -----

  /** What a decompressing reader yields: the bytes before the stream ends or breaks. */
  datatype Stream = Stream(bytes: Bytes, intact: bool)

  /** DEFLATE, zlib and the Seal and Open functions of AES-GCM, whose parameters are a
      key, a nonce and a text. */
  datatype Library = Library(
    deflate: Bytes -> Bytes,
    inflate: Bytes -> Stream,
    zlibPack: Bytes -> Bytes,
    zlibUnpack: Bytes -> Stream,
    seal: (Bytes, Bytes, Bytes) -> Bytes,
    open: (Bytes, Bytes, Bytes) -> Option<Bytes>)

  predicate ValidKey(k: Bytes) {
    |k| == 16 || |k| == 24 || |k| == 32
  }

  /** RFC 1951, RFC 1950 and sections 7.1 and 7.2 of NIST SP 800-38D: decompression
      inverts compression, opening inverts sealing, a tag has 16 bytes. */
  ghost predicate Lawful(lib: Library) {
    && (forall v :: lib.inflate(lib.deflate(v)) == Stream(v, true))
    && (forall v :: lib.zlibUnpack(lib.zlibPack(v)) == Stream(v, true))
    && (forall k, n, v :: ValidKey(k) && |n| == 12 ==>
          && |lib.seal(k, n, v)| == |v| + 16
          && lib.open(k, n, lib.seal(k, n, v)) == Some(v))
  }

  /** A text sealed under `k` opens under no other of the given keys. */
  ghost predicate OnlyOpens(lib: Library, k: Bytes, keys: seq<Bytes>) {
    forall other, n, v :: other in keys && other != k && |n| == 12 ==>
      lib.open(other, n, lib.seal(k, n, v)) == None
  }

  // ----- compression.go -----

  function Compress(lib: Library, c: Compression, v: Bytes): Bytes {
    if c == Zlib then lib.zlibPack(v) else lib.deflate(v)
  }

  /** Reads one byte past the limit, so the stream's own fault shows only before it. */
  function ReadLimited(s: Stream): Result<Bytes> {
    if |s.bytes| > 4194304 then Err(TooLarge)
    else if !s.intact then Err(Corrupt)
    else Ok(s.bytes)
  }

  function Decompress(lib: Library, flag: nat, v: Bytes): Result<Bytes> {
    ReadLimited(if flag == 2 then lib.zlibUnpack(v) else lib.inflate(v))
  }

  // ----- crypto.go -----

  function Encrypt(lib: Library, key: Bytes, nonce: Bytes, v: Bytes): Result<Bytes> {
    if !ValidKey(key) then Err(InvalidKey) else Ok(nonce + lib.seal(key, nonce, v))
  }

  function DecryptWithKey(lib: Library, key: Bytes, v: Bytes): Result<Bytes> {
    if !ValidKey(key) then Err(InvalidKey)
    else if |v| < 28 then Err(InvalidData)
    else match lib.open(key, v[..12], v[12..])
      case Some(text) => Ok(text)
      case None => Err(DecryptionFailure)
  }

  /** Some key of the list opens the value. */
  predicate Opens(lib: Library, keys: seq<Bytes>, v: Bytes) {
    exists i :: 0 <= i < |keys| && DecryptWithKey(lib, keys[i], v).Ok?
  }

  /** The specification of decrypt: the earliest key that opens the value decides, the
      encryption key before the others; the others count only after a failed authentication. */
  ghost predicate DecryptsTo(lib: Library, key: Bytes, others: seq<Bytes>, v: Bytes, r: Result<Bytes>) {
    var first := DecryptWithKey(lib, key, v);
    if first != Err(DecryptionFailure) || !Opens(lib, others, v) then r == first
    else exists i ::
      && 0 <= i < |others|
      && r == DecryptWithKey(lib, others[i], v)
      && r.Ok?
      && forall j :: 0 <= j < i ==> DecryptWithKey(lib, others[j], v).Err?
  }

  function Fallback(lib: Library, keys: seq<Bytes>, v: Bytes): Option<Bytes> {
    if keys == [] then None
    else match DecryptWithKey(lib, keys[0], v)
      case Ok(text) => Some(text)
      case Err(_) => Fallback(lib, keys[1..], v)
  }

  function Decrypt(lib: Library, key: Bytes, others: seq<Bytes>, v: Bytes): Result<Bytes> {
    var first := DecryptWithKey(lib, key, v);
    if first != Err(DecryptionFailure) then first
    else match Fallback(lib, others, v)
      case Some(text) => Ok(text)
      case None => first
  }

  lemma {:induction false} FallbackFirst(lib: Library, keys: seq<Bytes>, v: Bytes)
    ensures Fallback(lib, keys, v).None? <==> !Opens(lib, keys, v)
    ensures Fallback(lib, keys, v).Some? ==> exists i ::
              && 0 <= i < |keys|
              && DecryptWithKey(lib, keys[i], v) == Ok(Fallback(lib, keys, v).value)
              && forall j :: 0 <= j < i ==> DecryptWithKey(lib, keys[j], v).Err?
  {
    if keys != [] {
      FallbackFirst(lib, keys[1..], v);
      if DecryptWithKey(lib, keys[0], v).Err? && Fallback(lib, keys[1..], v).Some? {
        var i :|
          && 0 <= i < |keys[1..]|
          && DecryptWithKey(lib, keys[1..][i], v) == Ok(Fallback(lib, keys[1..], v).value)
          && forall j :: 0 <= j < i ==> DecryptWithKey(lib, keys[1..][j], v).Err?;
        forall j | 0 <= j < i + 1
          ensures DecryptWithKey(lib, keys[j], v).Err?
        {
          if j > 0 { assert keys[j] == keys[1..][j - 1]; }
        }
        assert DecryptWithKey(lib, keys[i + 1], v) == Ok(Fallback(lib, keys, v).value);
      }
      if Opens(lib, keys, v) && DecryptWithKey(lib, keys[0], v).Err? {
        var i :| 0 <= i < |keys| && DecryptWithKey(lib, keys[i], v).Ok?;
        assert keys[i] == keys[1..][i - 1];
      }
    }
  }

  /** decrypt meets its specification and nothing else does. */
  lemma DecryptMeetsSpec(lib: Library, key: Bytes, others: seq<Bytes>, v: Bytes, r: Result<Bytes>)
    ensures DecryptsTo(lib, key, others, v, r) <==> r == Decrypt(lib, key, others, v)
  {
    FallbackFirst(lib, others, v);
    if DecryptsTo(lib, key, others, v, r) && DecryptWithKey(lib, key, v) == Err(DecryptionFailure)
       && Opens(lib, others, v) {
      var i :|
        && 0 <= i < |others|
        && r == DecryptWithKey(lib, others[i], v)
        && r.Ok?
        && forall j :: 0 <= j < i ==> DecryptWithKey(lib, others[j], v).Err?;
      var k :|
        && 0 <= k < |others|
        && DecryptWithKey(lib, others[k], v) == Ok(Fallback(lib, others, v).value)
        && forall j :: 0 <= j < k ==> DecryptWithKey(lib, others[j], v).Err?;
      assert i == k;
    }
  }

  // ----- the record, storage.go -----

  /** The setting compresses the value and the result is shorter. */
  predicate Shrinks(lib: Library, c: Compression, v: Bytes) {
    c != Uncompressed && |v| > |Compress(lib, c, v)|
  }

  function Flag(c: Compression): nat {
    if c == Zlib then 2 else 1
  }

  /** Store, up to the point where the record is written. */
  function Encode(lib: Library, s: Settings, nonce: Bytes, v: Bytes): Result<Stored> {
    var small := Shrinks(lib, s.compression, v);
    var body := if small then Compress(lib, s.compression, v) else v;
    var flag := if small then Flag(s.compression) else 0;
    if s.encryptionKey == [] then Ok(Stored(body, |v|, flag, 0))
    else
      var text :- Encrypt(lib, s.encryptionKey, nonce, body);
      Ok(Stored(text, |v|, flag, 1))
  }

  /** Load, from the point where the record was read. */
  function Decode(lib: Library, s: Settings, sd: Stored): Result<Bytes> {
    var body :- if sd.encryption > 0 then Decrypt(lib, s.encryptionKey, s.decryptionKeys, sd.value) else Ok(sd.value);
    if sd.compression > 0 then Decompress(lib, sd.compression, body) else Ok(body)
  }

  function Keys(s: Settings): seq<Bytes> {
    [s.encryptionKey] + s.decryptionKeys
  }

  /** The reader tries `k` at some point. */
  predicate Tries(s: Settings, k: Bytes) {
    ValidKey(s.encryptionKey) && k in Keys(s)
  }

  predicate Fits(lib: Library, c: Compression, v: Bytes) {
    !Shrinks(lib, c, v) || |v| <= 4194304
  }

  /** One key against a text sealed under another, or under itself. */
  lemma SealedUnder(lib: Library, k: Bytes, nonce: Bytes, v: Bytes, other: Bytes, keys: seq<Bytes>)
    requires Lawful(lib) && ValidKey(k) && |nonce| == 12
    requires other in keys && OnlyOpens(lib, k, keys)
    ensures DecryptWithKey(lib, other, nonce + lib.seal(k, nonce, v)) ==
            if !ValidKey(other) then Err(InvalidKey) else if other == k then Ok(v) else Err(DecryptionFailure)
  {
    var text := nonce + lib.seal(k, nonce, v);
    assert text[..12] == nonce && text[12..] == lib.seal(k, nonce, v);
  }

  /** decrypt recovers a sealed text exactly when the reader tries its key. */
  lemma DecryptSealed(lib: Library, k: Bytes, nonce: Bytes, v: Bytes, s: Settings)
    requires Lawful(lib) && ValidKey(k) && |nonce| == 12 && OnlyOpens(lib, k, Keys(s))
    ensures Tries(s, k) ==> Decrypt(lib, s.encryptionKey, s.decryptionKeys, nonce + lib.seal(k, nonce, v)) == Ok(v)
    ensures !Tries(s, k) ==> Decrypt(lib, s.encryptionKey, s.decryptionKeys, nonce + lib.seal(k, nonce, v)) ==
                             Err(if ValidKey(s.encryptionKey) then DecryptionFailure else InvalidKey)
  {
    var text := nonce + lib.seal(k, nonce, v);
    SealedUnder(lib, k, nonce, v, s.encryptionKey, Keys(s));
    FallbackFirst(lib, s.decryptionKeys, text);
    forall i | 0 <= i < |s.decryptionKeys|
      ensures DecryptWithKey(lib, s.decryptionKeys[i], text) == Ok(v) <==> s.decryptionKeys[i] == k
      ensures DecryptWithKey(lib, s.decryptionKeys[i], text).Ok? ==> s.decryptionKeys[i] == k
    {
      assert s.decryptionKeys[i] == Keys(s)[i + 1];
      SealedUnder(lib, k, nonce, v, s.decryptionKeys[i], Keys(s));
    }
    if k in s.decryptionKeys {
      var i :| 0 <= i < |s.decryptionKeys| && s.decryptionKeys[i] == k;
      assert Opens(lib, s.decryptionKeys, text);
    }
  }

  /** Load after Store, for any settings on both sides: the original bytes come back exactly
      when the reader tries the writer's key and the value was stored as it is or has at most
      4 MiB; a larger one is refused as too large.  The original size is recorded in every
      case. */
  lemma LoadAfterStoreIff(lib: Library, writer: Settings, reader: Settings, nonce: Bytes, v: Bytes)
    requires Lawful(lib) && |nonce| == 12
    requires writer.encryptionKey != [] ==> OnlyOpens(lib, writer.encryptionKey, Keys(reader))
    ensures Encode(lib, writer, nonce, v).Ok? <==> writer.encryptionKey == [] || ValidKey(writer.encryptionKey)
    ensures Encode(lib, writer, nonce, v).Ok? ==>
              var sd := Encode(lib, writer, nonce, v).value;
              && sd.size == |v|
              && (sd.compression == 0 <==> !Shrinks(lib, writer.compression, v))
              && (Decode(lib, reader, sd) == Ok(v) <==>
                  && (writer.encryptionKey == [] || Tries(reader, writer.encryptionKey))
                  && Fits(lib, writer.compression, v))
              && ((writer.encryptionKey == [] || Tries(reader, writer.encryptionKey))
                  && !Fits(lib, writer.compression, v) ==>
                    Decode(lib, reader, sd) == Err(TooLarge))
  {
    if ValidKey(writer.encryptionKey) {
      var body := if Shrinks(lib, writer.compression, v) then Compress(lib, writer.compression, v) else v;
      DecryptSealed(lib, writer.encryptionKey, nonce, body, reader);
    }
  }

  /** The flag of a record names the algorithm: 1 stands for DEFLATE, 2 for zlib, and 0 for a
      value that is kept as it is because compression is off or does not make it shorter. */
  lemma FlagNamesAlgorithm(lib: Library, s: Settings, nonce: Bytes, v: Bytes)
    requires s.encryptionKey == [] || ValidKey(s.encryptionKey)
    ensures var r := Encode(lib, s, nonce, v);
      r.Ok? && var sd := r.value;
      var body := match sd.compression case 1 => lib.deflate(v) case 2 => lib.zlibPack(v) case _ => v;
      && (sd.compression == 1 <==> s.compression == Flate && |lib.deflate(v)| < |v|)
      && (sd.compression == 2 <==> s.compression == Zlib && |lib.zlibPack(v)| < |v|)
      && sd.compression <= 2 && (sd.encryption == 0 <==> s.encryptionKey == [])
      && sd.value == if s.encryptionKey == [] then body else nonce + lib.seal(s.encryptionKey, nonce, body)
  {}

  /** Load of a compressed record never returns part of a stream: it returns all bytes of an
      intact stream of at most 4 MiB; a longer one is too large, and a damaged one that breaks
      off before the limit is refused as corrupt. */
  lemma OnlyWholeStreamsLoad(lib: Library, s: Settings, sd: Stored, body: Bytes)
    requires sd.compression > 0
    requires (if sd.encryption > 0 then Decrypt(lib, s.encryptionKey, s.decryptionKeys, sd.value) else Ok(sd.value)) ==
             Ok(body)
    ensures var stream := if sd.compression == 2 then lib.zlibUnpack(body) else lib.inflate(body);
      && (forall v :: Decode(lib, s, sd) == Ok(v) <==> stream == Stream(v, true) && |v| <= 4_194_304)
      && (Decode(lib, s, sd) == Err(TooLarge) <==> |stream.bytes| > 4_194_304)
      && (Decode(lib, s, sd) == Err(Corrupt) <==> !stream.intact && |stream.bytes| <= 4_194_304)
  {
    hide Decrypt;
  }

  // ----- finalizeDecryptionKeys, caddyfile.go -----

  predicate TooShort(keys: seq<Bytes>) {
    exists i :: 0 <= i < |keys| && |keys[i]| < 32
  }

  /** The entries cut to their first 32 bytes. */
  function Cut(keys: seq<Bytes>): (r: seq<Bytes>)
    requires !TooShort(keys)
    ensures |r| == |keys|
    ensures forall i :: 0 <= i < |r| ==> |r[i]| == 32 && r[i] <= keys[i]
  {
    seq(|keys|, i requires 0 <= i < |keys| => assert |keys[i]| >= 32; keys[i][..32])
  }

  /** First occurrences, without the encryption key. */
  function Kept(key: Bytes, keys: seq<Bytes>): seq<Bytes> {
    if keys == [] then []
    else
      var rest := Kept(key, keys[..|keys| - 1]);
      var last := keys[|keys| - 1];
      if last == key || last in rest then rest else rest + [last]
  }

  /** Nothing is lost, nothing is kept twice, and the encryption key is not kept. */
  lemma {:induction false} KeptContents(key: Bytes, keys: seq<Bytes>)
    ensures forall k :: k in Kept(key, keys) <==> k in keys && k != key
    ensures forall i, j :: 0 <= i < j < |Kept(key, keys)| ==> Kept(key, keys)[i] != Kept(key, keys)[j]
  {
    if keys != [] {
      KeptContents(key, keys[..|keys| - 1]);
      assert keys == keys[..|keys| - 1] + [keys[|keys| - 1]];
    }
  }

  lemma {:induction false} FallbackAppend(lib: Library, keys: seq<Bytes>, k: Bytes, v: Bytes)
    ensures Fallback(lib, keys + [k], v) ==
            if Fallback(lib, keys, v).Some? then Fallback(lib, keys, v) else Fallback(lib, [k], v)
  {
    if keys != [] {
      assert (keys + [k])[1..] == keys[1..] + [k];
      FallbackAppend(lib, keys[1..], k, v);
    } else {
      assert keys + [k] == [k];
    }
  }

  lemma {:induction false} KeptFallback(lib: Library, key: Bytes, keys: seq<Bytes>, v: Bytes)
    requires DecryptWithKey(lib, key, v).Err?
    ensures Fallback(lib, Kept(key, keys), v) == Fallback(lib, keys, v)
  {
    if keys != [] {
      var front, last := keys[..|keys| - 1], keys[|keys| - 1];
      assert keys == front + [last];
      KeptFallback(lib, key, front, v);
      FallbackAppend(lib, front, last, v);
      FallbackAppend(lib, Kept(key, front), last, v);
      FallbackFirst(lib, front, v);
      KeptContents(key, front);
      if last in Kept(key, front) {
        var i :| 0 <= i < |front| && front[i] == last;
      }
    }
  }

  /** Dropping repeated decryption keys never changes what decrypt returns, for any text. */
  lemma DroppingDuplicatesIsSafe(lib: Library, key: Bytes, keys: seq<Bytes>, v: Bytes)
    ensures Decrypt(lib, key, Kept(key, keys), v) == Decrypt(lib, key, keys, v)
  {
    if DecryptWithKey(lib, key, v).Err? {
      KeptFallback(lib, key, keys, v);
    }
  }

  lemma NothingKept(key: Bytes)
    ensures !TooShort([]) && Cut([]) == [] && Kept(key, Cut([])) == []
  {}

  /** One more entry: too short, or cut and kept unless it is there already. */
  lemma KeptGrows(key: Bytes, all: seq<Bytes>, i: nat)
    requires i < |all| && !TooShort(all[..i])
    ensures |all[i]| < 32 <==> TooShort(all[..i + 1])
    ensures |all[i]| < 32 ==> TooShort(all)
    ensures |all[i]| >= 32 ==>
      var kept, cut := Kept(key, Cut(all[..i])), all[i][..32];
      Kept(key, Cut(all[..i + 1])) == if cut == key || cut in kept then kept else kept + [cut]
  {
    assert all[..i + 1] == all[..i] + [all[i]];
    if |all[i]| >= 32 {
      var cuts := Cut(all[..i + 1]);
      assert cuts[i] == all[i][..32];
      assert cuts[..i] == Cut(all[..i]);
    } else {
      assert |all[..i + 1][i]| < 32;
    }
  }

  datatype Provision = Accepted | NoEncryptionKey | EntryTooShort(index: nat)

  /** The entries after placeholder expansion. */
  function Expanded(expand: Bytes -> Bytes, keys: seq<Bytes>): (r: seq<Bytes>)
    ensures |r| == |keys|
  {
    seq(|keys|, i requires 0 <= i < |keys| => expand(keys[i]))
  }

  /** The key fields of the storage configuration. */
  class StorageKeys {
    var encryptionKey: Bytes
    var decryptionKeys: seq<Bytes>

    constructor (encryptionKey: Bytes, decryptionKeys: seq<Bytes>)
      ensures this.encryptionKey == encryptionKey && this.decryptionKeys == decryptionKeys
    {
      this.encryptionKey := encryptionKey;
      this.decryptionKeys := decryptionKeys;
    }

    /** A list is accepted whole or not at all: the first short entry is reported and the
        field stays as it was. */
    method FinalizeDecryptionKeys(expand: Bytes -> Bytes) returns (r: Provision)
      modifies this`decryptionKeys
      ensures r == NoEncryptionKey <==> old(decryptionKeys) != [] && encryptionKey == []
      ensures r.EntryTooShort? <==> encryptionKey != [] && TooShort(Expanded(expand, old(decryptionKeys)))
      ensures r.EntryTooShort? ==>
                && r.index < |old(decryptionKeys)| && |expand(old(decryptionKeys)[r.index])| < 32
                && !TooShort(Expanded(expand, old(decryptionKeys))[..r.index])
      ensures r != Accepted ==> decryptionKeys == old(decryptionKeys)
      ensures r == Accepted ==>
                && !TooShort(Expanded(expand, old(decryptionKeys)))
                && decryptionKeys == Kept(encryptionKey, Cut(Expanded(expand, old(decryptionKeys))))
    {
      hide Cut, Kept, TooShort;
      NothingKept(encryptionKey);
      if |decryptionKeys| == 0 { return Accepted; }
      if encryptionKey == [] { return NoEncryptionKey; }
      ghost var all := Expanded(expand, decryptionKeys);
      var keys: seq<Bytes> := [];
      assert all[..0] == [];
      for i := 0 to |decryptionKeys|
        invariant decryptionKeys == old(decryptionKeys) && |all| == |decryptionKeys|
        invariant !TooShort(all[..i])
        invariant keys == Kept(encryptionKey, Cut(all[..i]))
      {
        KeptGrows(encryptionKey, all, i);
        var key := expand(decryptionKeys[i]);
        assert all[i] == key;
        if |key| < 32 { return EntryTooShort(i); }
        key := key[..32];
        if key == encryptionKey || key in keys { continue; }
        keys := keys + [key];
      }
      assert all[..|decryptionKeys|] == all;
      decryptionKeys := keys;
      return Accepted;
    }

    method DecryptValue(lib: Library, v: Bytes) returns (r: Result<Bytes>)
      ensures DecryptsTo(lib, encryptionKey, decryptionKeys, v, r)
      ensures r == Decrypt(lib, encryptionKey, decryptionKeys, v)
    {
      DecryptMeetsSpec(lib, encryptionKey, decryptionKeys, v, Decrypt(lib, encryptionKey, decryptionKeys, v));
      r := DecryptWithKey(lib, encryptionKey, v);
      if r != Err(DecryptionFailure) { return; }
      FallbackFirst(lib, decryptionKeys, v);
      for i := 0 to |decryptionKeys|
        invariant forall j :: 0 <= j < i ==> DecryptWithKey(lib, decryptionKeys[j], v).Err?
      {
        var fallback := DecryptWithKey(lib, decryptionKeys[i], v);
        if fallback.Ok? {
          return fallback;
        }
      }
    }
  }

  // ----- the laws can be met -----

  function ToyOpen(k: Bytes, c: Bytes): Option<Bytes> {
    if |k| >= 16 && |c| >= 16 && c[|c| - 16..] == k[..16] then Some(c[..|c| - 16]) else None
  }

  function ToySeal(k: Bytes, v: Bytes): Bytes {
    if |k| >= 16 then v + k[..16] else v
  }

  lemma ToyInverts(k: Bytes, other: Bytes, v: Bytes)
    requires |k| >= 16
    ensures ToyOpen(other, ToySeal(k, v)) ==
            if |other| >= 16 && other[..16] == k[..16] then Some(v) else None
  {
    var c := ToySeal(k, v);
    assert c[|c| - 16..] == k[..16] && c[..|c| - 16] == v;
  }

  const TOY: Library := Library(v => v, v => Stream(v, true), v => v, v => Stream(v, true),
                                (k, n, v) => ToySeal(k, v), (k, n, c) => ToyOpen(k, c))

  lemma ToyIsLawful()
    ensures Lawful(TOY)
  {
    forall k: Bytes, n: Bytes, v: Bytes | ValidKey(k)
      ensures |TOY.seal(k, n, v)| == |v| + 16 && TOY.open(k, n, TOY.seal(k, n, v)) == Some(v)
    {
      ToyInverts(k, k, v);
    }
  }

  lemma ToyOnlyOpens(a: Bytes, b: Bytes)
    requires ValidKey(a) && ValidKey(b) && a[..16] != b[..16]
    ensures OnlyOpens(TOY, a, [a, b])
  {
    forall other, n: Bytes, v: Bytes | other in [a, b] && other != a
      ensures TOY.open(other, n, TOY.seal(a, n, v)) == None
    {
      ToyInverts(a, other, v);
    }
  }

  /** Some library meets the laws for any two keys that differ in their first 16 bytes. */
  lemma LawsAreMet(a: Bytes, b: Bytes)
    requires ValidKey(a) && ValidKey(b) && a[..16] != b[..16]
    ensures exists lib :: Lawful(lib) && OnlyOpens(lib, a, [a, b]) && OnlyOpens(lib, b, [b, a])
  {
    hide Lawful, OnlyOpens;
    ToyIsLawful();
    ToyOnlyOpens(a, b);
    ToyOnlyOpens(b, a);
  }
}
