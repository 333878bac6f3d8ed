/** Secrets at rest: the `iv:tag:data` envelope in hexadecimal, and the service that stores secrets in it. */
module Encryption {
  import opened Wrappers

  type Byte = n: nat | n < 256

  // ---------- hexadecimal, section 8 of RFC 4648, in lower case ----------

  function HexChar(n: nat): (c: char)
    requires n < 16
    ensures c != ':'
  {
    if n < 10 then '0' + n as char else 'a' + (n - 10) as char
  }

  /** The value of a digit in either case. */
  function HexValue(c: char): (r: Option<nat>)
    ensures r.Some? ==> r.value < 16
  {
    if '0' <= c <= '9' then Some((c - '0') as nat)
    else if 'a' <= c <= 'f' then Some((c - 'a') as nat + 10)
    else if 'A' <= c <= 'F' then Some((c - 'A') as nat + 10)
    else None
  }

  function Hex(bytes: seq<Byte>): (s: string)
    ensures ':' !in s && |s| == 2 * |bytes|
  {
    if |bytes| == 0 then "" else [HexChar(bytes[0] / 16), HexChar(bytes[0] % 16)] + Hex(bytes[1..])
  }

  /** `Buffer.from(s, 'hex')`: decoding stops at the first pair that is not two digits. */
  function Unhex(s: string): seq<Byte>
    decreases |s|
  {
    if |s| < 2 || HexValue(s[0]).None? || HexValue(s[1]).None? then []
    else [HexValue(s[0]).value * 16 + HexValue(s[1]).value] + Unhex(s[2..])
  }

  lemma HexDigitRoundTrip(n: nat)
    requires n < 16
    ensures HexValue(HexChar(n)) == Some(n)
  {
  }

  lemma {:induction false} HexRoundTrip(bytes: seq<Byte>)
    ensures Unhex(Hex(bytes)) == bytes
  {
    if |bytes| > 0 {
      HexDigitRoundTrip(bytes[0] / 16);
      HexDigitRoundTrip(bytes[0] % 16);
      assert Hex(bytes)[2..] == Hex(bytes[1..]);
      HexRoundTrip(bytes[1..]);
    }
  }

  const HEX_DIGITS := "0123456789abcdef"

  /** Two digits a byte, the higher one first. */
  lemma {:induction false} HexMeaning(bytes: seq<Byte>, i: nat)
    requires i < |bytes|
    ensures Hex(bytes)[2 * i] == HEX_DIGITS[bytes[i] / 16] && Hex(bytes)[2 * i + 1] == HEX_DIGITS[bytes[i] % 16]
  {
    if i == 0 {
      HexCharMeaning(bytes[0] / 16);
      HexCharMeaning(bytes[0] % 16);
    } else {
      HexMeaning(bytes[1..], i - 1);
    }
  }

  lemma HexCharMeaning(n: nat)
    requires n < 16
    ensures HexChar(n) == HEX_DIGITS[n]
  {
  }

  // ---------- split(':') ----------

  function SplitColon(s: string): (parts: seq<string>)
    ensures |parts| > 0
  {
    if |s| == 0 then [""]
    else
      var rest := SplitColon(s[1..]);
      if s[0] == ':' then [""] + rest else [[s[0]] + rest[0]] + rest[1..]
  }

  lemma {:induction false} SplitAtColon(first: string, rest: string)
    requires ':' !in first
    ensures SplitColon(first + (":" + rest)) == [first] + SplitColon(rest)
  {
    var s := first + (":" + rest);
    if |first| == 0 {
      assert s[1..] == rest;
    } else {
      assert s[1..] == first[1..] + (":" + rest) && first[0] in first;
      assert [first[0]] + first[1..] == first;
      SplitAtColon(first[1..], rest);
    }
  }

  lemma {:induction false} SplitWithoutColon(s: string)
    requires ':' !in s
    ensures SplitColon(s) == [s]
  {
    if |s| > 0 {
      assert s[0] in s && [s[0]] + s[1..] == s;
      SplitWithoutColon(s[1..]);
    }
  }

  // ---------- the envelope ----------

  datatype Sealed = Sealed(data: seq<Byte>, tag: seq<Byte>)

  /** The authenticated cipher under the service's key, as an unseen library: `open` is None where it throws. */
  datatype Cipher = Cipher(seal: (seq<Byte>, string) -> Sealed, open: (seq<Byte>, seq<Byte>, seq<Byte>) -> Option<string>)

  /** Opening undoes sealing, tags are not empty, and the data is as long as the text. */
  ghost predicate Lawful(c: Cipher) {
    forall iv: seq<Byte>, text: string :: |iv| > 0 ==>
      var sealed := c.seal(iv, text);
      && c.open(iv, sealed.tag, sealed.data) == Some(text)
      && |sealed.tag| > 0 && (sealed.data == [] <==> text == "")
  }

  // ---------- such a cipher exists ----------

  /** Three bytes a character. */
  function Spell(text: string): (r: seq<Byte>)
    ensures r == [] <==> text == ""
  {
    if |text| == 0 then []
    else [text[0] as nat / 65536 % 256, text[0] as nat / 256 % 256, text[0] as nat % 256] + Spell(text[1..])
  }

  function Unspell(bytes: seq<Byte>): string {
    if |bytes| < 3 then ""
    else
      var code := (bytes[0] as int) * 65536 + (bytes[1] as int) * 256 + bytes[2] as int;
      (if code < 0xD800 || 0xE000 <= code < 0x11_0000 then [code as char] else "") + Unspell(bytes[3..])
  }

  lemma ThreeDigits(code: nat)
    requires code < 0x11_0000
    ensures code / 65536 % 256 * 65536 + code / 256 % 256 * 256 + code % 256 == code
  {
    var high, rest := code / 65536, code % 65536;
    assert code == high * 65536 + rest;
    assert code / 256 == high * 256 + rest / 256;
  }

  lemma {:induction false} SpellRoundTrip(text: string)
    ensures Unspell(Spell(text)) == text
  {
    if |text| > 0 {
      var code := text[0] as nat;
      ThreeDigits(code);
      assert Spell(text)[3..] == Spell(text[1..]);
      SpellRoundTrip(text[1..]);
    }
  }

  const PLAIN := Cipher((iv: seq<Byte>, text: string) => Sealed(Spell(text), [0]),
                        (iv: seq<Byte>, tag: seq<Byte>, data: seq<Byte>) => Some(Unspell(data)))

  lemma LawfulCipherExists()
    ensures Lawful(PLAIN)
  {
    forall iv: seq<Byte>, text: string
      ensures PLAIN.open(iv, PLAIN.seal(iv, text).tag, PLAIN.seal(iv, text).data) == Some(text)
    {
      SpellRoundTrip(text);
    }
  }

  // ---------- sealing and opening ----------

  function Encrypt(c: Cipher, iv: seq<Byte>, text: string): string {
    var sealed := c.seal(iv, text);
    Hex(iv) + (":" + (Hex(sealed.tag) + (":" + Hex(sealed.data))))
  }

  datatype DecryptError = InvalidFormat | Rejected

  /** Parts beyond the third are ignored. */
  function Decrypt(c: Cipher, text: string): Result<string, DecryptError> {
    Opened(c, SplitColon(text))
  }

  function Opened(c: Cipher, parts: seq<string>): Result<string, DecryptError> {
    if |parts| < 3 || parts[0] == "" || parts[1] == "" || parts[2] == "" then Err(InvalidFormat)
    else
      var plain := c.open(Unhex(parts[0]), Unhex(parts[1]), Unhex(parts[2]));
      if plain.None? then Err(Rejected) else Ok(plain.value)
  }

  lemma EnvelopeSplits(iv: seq<Byte>, tag: seq<Byte>, data: seq<Byte>)
    ensures SplitColon(Hex(iv) + (":" + (Hex(tag) + (":" + Hex(data))))) == [Hex(iv), Hex(tag), Hex(data)]
  {
    SplitAtColon(Hex(iv), Hex(tag) + (":" + Hex(data)));
    SplitAtColon(Hex(tag), Hex(data));
    SplitWithoutColon(Hex(data));
  }

  /** The envelope is `iv:tag:data`. */
  lemma EnvelopeShape(c: Cipher, iv: seq<Byte>, text: string)
    ensures SplitColon(Encrypt(c, iv, text)) == [Hex(iv), Hex(c.seal(iv, text).tag), Hex(c.seal(iv, text).data)]
  {
    EnvelopeSplits(iv, c.seal(iv, text).tag, c.seal(iv, text).data);
  }

  /** A text is malformed if and only if one of its first three parts between colons is missing or empty; parts beyond
      the third change nothing; and what the cipher does not open is rejected. */
  lemma DecryptMeaning(c: Cipher, first: string, second: string, third: string, rest: string)
    requires ':' !in first && ':' !in second && ':' !in third
    ensures Decrypt(c, first) == Decrypt(c, first + (":" + second)) == Err(InvalidFormat)
    ensures var text := first + (":" + (second + (":" + third)));
            && (Decrypt(c, text) == Err(InvalidFormat) <==> first == "" || second == "" || third == "")
            && (first != "" && second != "" && third != "" ==>
                  Decrypt(c, text) == match c.open(Unhex(first), Unhex(second), Unhex(third))
                                      case None => Err(Rejected)
                                      case Some(plain) => Ok(plain))
            && Decrypt(c, first + (":" + (second + (":" + (third + (":" + rest)))))) == Decrypt(c, text)
  {
    SplitPlain(first, second, third, rest);
    OpenedMeaning(c, first, second, third, SplitColon(rest));
    hide SplitColon, Unhex, Opened;
  }

  lemma OpenedMeaning(c: Cipher, first: string, second: string, third: string, rest: seq<string>)
    ensures Opened(c, [first]) == Opened(c, [first, second]) == Err(InvalidFormat)
    ensures var parts := [first, second, third];
            && (Opened(c, parts) == Err(InvalidFormat) <==> first == "" || second == "" || third == "")
            && (first != "" && second != "" && third != "" ==>
                  Opened(c, parts) == match c.open(Unhex(first), Unhex(second), Unhex(third))
                                      case None => Err(Rejected)
                                      case Some(plain) => Ok(plain))
            && Opened(c, parts + rest) == Opened(c, parts)
  {
    hide Unhex;
    var more := [first, second, third] + rest;
    assert more[0] == first && more[1] == second && more[2] == third;
  }

  lemma SplitPlain(first: string, second: string, third: string, rest: string)
    requires ':' !in first && ':' !in second && ':' !in third
    ensures SplitColon(first) == [first] && SplitColon(first + (":" + second)) == [first, second]
    ensures SplitColon(first + (":" + (second + (":" + third)))) == [first, second, third]
    ensures SplitColon(first + (":" + (second + (":" + (third + (":" + rest)))))) ==
            [first, second, third] + SplitColon(rest)
  {
    hide SplitColon;
    SplitWithoutColon(first);
    SplitWithoutColon(second);
    SplitWithoutColon(third);
    SplitAtColon(first, second);
    SplitAtColon(second, third);
    SplitAtColon(first, second + (":" + third));
    SplitAtColon(third, rest);
    SplitAtColon(second, third + (":" + rest));
    SplitAtColon(first, second + (":" + (third + (":" + rest))));
  }

  /** The envelope opens to what was sealed for every text but the empty one, which leaves an empty third part and
      is rejected as malformed. */
  lemma EnvelopeRoundTrip(c: Cipher, iv: seq<Byte>, text: string)
    requires Lawful(c) && |iv| > 0
    ensures Decrypt(c, Encrypt(c, iv, text)) == if text == "" then Err(InvalidFormat) else Ok(text)
  {
    var sealed := c.seal(iv, text);
    EnvelopeSplits(iv, sealed.tag, sealed.data);
    HexRoundTrip(iv);
    HexRoundTrip(sealed.tag);
    HexRoundTrip(sealed.data);
  }
}

module Secrets {
  import opened Wrappers
  import opened Encryption

  datatype Secret = Secret(id: int, key: string, value: string, description: Option<string>, environmentId: string)

  /** A secret as the service hands it out, in plain text. */
  datatype SecretDto = SecretDto(id: int, key: string, value: string, description: Option<string>)

  datatype ServiceError = KeyConflict | SecretNotFound | InternalError

  function Dto(s: Secret, plain: string): SecretDto {
    SecretDto(s.id, s.key, plain, s.description)
  }

  class SecretsService {
    const cipher: Cipher
    var secrets: map<int, Secret>

    constructor (cipher: Cipher)
      requires Lawful(cipher)
      ensures Valid() && this.cipher == cipher && secrets == map[]
    {
      this.cipher, this.secrets := cipher, map[];
    }

    ghost predicate Readable(id: int)
      reads this
      requires id in secrets
    {
      Decrypt(cipher, secrets[id].value).Ok?
    }

    /** Every stored secret decrypts to a text that is not empty, and an environment has no key twice. */
    ghost predicate Valid()
      reads this
    {
      && Lawful(cipher)
      && (forall id :: id in secrets ==>
           secrets[id].id == id && Readable(id) && Decrypt(cipher, secrets[id].value).value != "")
      && forall i, j :: i in secrets && j in secrets && i != j ==>
           !(secrets[i].environmentId == secrets[j].environmentId && secrets[i].key == secrets[j].key)
    }

    /** The abstraction: the secrets of an environment in plain text. */
    ghost function Vault(environmentId: string): map<int, SecretDto>
      requires Valid()
      reads this
    {
      map id | id in secrets && secrets[id].environmentId == environmentId ::
        Dto(secrets[id], Decrypt(cipher, secrets[id].value).value)
    }

    /** Write one row, new or in the place of one with its environment. */
    method Store(s: Secret, ghost plain: string)
      requires Valid() && Decrypt(cipher, s.value) == Ok(plain) && plain != ""
      requires forall j :: j in secrets && j != s.id ==>
                 !(secrets[j].environmentId == s.environmentId && secrets[j].key == s.key)
      requires s.id in secrets ==> secrets[s.id].environmentId == s.environmentId
      modifies this
      ensures Valid()
      ensures Vault(s.environmentId) == old(Vault(s.environmentId))[s.id := Dto(s, plain)]
      ensures forall e :: e != s.environmentId ==> Vault(e) == old(Vault(e))
    {
      hide Encrypt, Decrypt;
      ghost var vault := Vault(s.environmentId);
      secrets := secrets[s.id := s];
      assert Readable(s.id);
      assert Vault(s.environmentId) == vault[s.id := Dto(s, plain)];
    }

    /** `iv` is the random initialisation vector, `id` the one the database assigns. A validated value is not empty. */
    method Create(environmentId: string, key: string, value: string, description: Option<string>, iv: seq<Byte>, id: int)
      returns (r: Result<SecretDto, ServiceError>)
      requires Valid() && value != "" && |iv| > 0 && id !in secrets
      modifies this
      ensures Valid()
      ensures r.Ok? <==> forall j :: j in old(Vault(environmentId)) ==> old(Vault(environmentId))[j].key != key
      ensures r.Err? ==> r.error == KeyConflict && secrets == old(secrets)
      ensures r.Ok? ==> r.value == SecretDto(id, key, value, description)
                        && Vault(environmentId) == old(Vault(environmentId))[id := r.value]
      ensures forall e :: e != environmentId ==> Vault(e) == old(Vault(e))
    {
      hide Encrypt, Decrypt;
      ghost var vault := Vault(environmentId);
      if exists j :: j in secrets && secrets[j].environmentId == environmentId && secrets[j].key == key {
        var j :| j in secrets && secrets[j].environmentId == environmentId && secrets[j].key == key;
        assert j in vault && vault[j].key == key;
        return Err(KeyConflict);
      }
      EnvelopeRoundTrip(cipher, iv, value);
      var newSecret := Secret(id, key, Encrypt(cipher, iv, value), description, environmentId);
      assert id !in vault;
      Store(newSecret, value);
      return Ok(Dto(newSecret, value));
    }

    /** One secret that cannot be decrypted fails the whole listing. */
    method FindAllForEnvironment(environmentId: string) returns (r: Result<map<int, SecretDto>, ServiceError>)
      ensures r.Err? <==> exists id :: id in secrets && secrets[id].environmentId == environmentId && !Readable(id)
      ensures Valid() ==> r == Ok(Vault(environmentId))
    {
      if exists id :: id in secrets && secrets[id].environmentId == environmentId
                      && Decrypt(cipher, secrets[id].value).Err? {
        assert exists id :: id in secrets && secrets[id].environmentId == environmentId && !Readable(id);
        return Err(InternalError);
      }
      assert forall id :: id in secrets && secrets[id].environmentId == environmentId ==> Readable(id);
      return Ok(map id | id in secrets && secrets[id].environmentId == environmentId ::
                  Dto(secrets[id], Decrypt(cipher, secrets[id].value).value));
    }

    /** An absent value or description leaves the stored one. The value handed back is the one a later listing
        shows, unless an empty value slipped past validation: that one is not stored but is handed back. */
    method Update(environmentId: string, id: int, value: Option<string>, description: Option<string>, iv: seq<Byte>)
      returns (r: Result<SecretDto, ServiceError>)
      requires Valid() && |iv| > 0
      modifies this
      ensures Valid()
      ensures r.Ok? <==> id in old(Vault(environmentId))
      ensures r.Err? ==> r.error == SecretNotFound && secrets == old(secrets)
      ensures r.Ok? ==>
                && id in Vault(environmentId)
                && (var was := old(Vault(environmentId))[id];
                    Vault(environmentId) == old(Vault(environmentId))[id := SecretDto(id, was.key,
                      if value.Some? && value.value != "" then value.value else was.value,
                      if description.Some? then description else was.description)])
                && (r.value == Vault(environmentId)[id] <==> value != Some(""))
      ensures forall e :: e != environmentId ==> Vault(e) == old(Vault(e))
    {
      hide Encrypt, Decrypt;
      ghost var vault := Vault(environmentId);
      if id !in secrets || secrets[id].environmentId != environmentId {
        return Err(SecretNotFound);
      }
      assert Readable(id);
      var s := secrets[id];
      var stored := s.value;
      if value.Some? && value.value != "" {
        EnvelopeRoundTrip(cipher, iv, value.value);
        stored := Encrypt(cipher, iv, value.value);
      }
      var updated := s.(value := stored, description := if description.Some? then description else s.description);
      var decrypted := Decrypt(cipher, updated.value);
      Store(updated, decrypted.value);
      var finalValue := if value.Some? then value.value else decrypted.value;
      return Ok(Dto(updated, finalValue));
    }

    method Remove(environmentId: string, id: int) returns (r: Result<(), ServiceError>)
      requires Valid()
      modifies this
      ensures Valid()
      ensures r == if id in old(Vault(environmentId)) then Ok(()) else Err(SecretNotFound)
      ensures Vault(environmentId) == old(Vault(environmentId)) - {id}
      ensures forall e :: e != environmentId ==> Vault(e) == old(Vault(e))
    {
      hide Encrypt, Decrypt;
      if id !in secrets || secrets[id].environmentId != environmentId {
        assert id !in Vault(environmentId);
        return Err(SecretNotFound);
      }
      secrets := secrets - {id};
      return Ok(());
    }
  }
}
