/** The master-key quality check (common/masterkey.go) and the parsing under it
    (common/encrypt.go). */
module MasterKey {
  import opened Basics
  import Base64

  const KEY_SIZE := 32
  const MIN_DISTINCT := 16

  /** "0123456789abcdef" twice: the default once committed to the repository. */
  const HEX_DIGITS: Bytes := [48, 49, 50, 51, 52, 53, 54, 55, 56, 57, 97, 98, 99, 100, 101, 102]
  const COMPROMISED_DEFAULT: Bytes := HEX_DIGITS + HEX_DIGITS

  datatype KeyError = NotConfigured | Malformed | WrongLength | Compromised | Printable | TooFewDistinct

  function ParseMasterKey(encoded: Bytes): Result<Bytes, KeyError> {
    if encoded == [] then Err(NotConfigured) else
      var key := Base64.Decode(encoded);
      if key.None? then Err(Malformed)
      else if |key.value| != KEY_SIZE then Err(WrongLength)
      else Ok(key.value)
  }

  predicate PrintableByte(b: byte) { 0x20 <= b <= 0x7E }

  method AllPrintableASCII(key: Bytes) returns (all: bool)
    ensures all <==> forall i | 0 <= i < |key| :: PrintableByte(key[i])
  {
    for i := 0 to |key|
      invariant forall j | 0 <= j < i :: PrintableByte(key[j])
    {
      if key[i] < 0x20 || key[i] > 0x7E { return false; }
    }
    return true;
  }

  /** The byte values that occur in the key. */
  function Distinct(key: Bytes): set<byte> { set b | b in key }

  method DistinctBytes(key: Bytes) returns (count: nat)
    ensures count == |Distinct(key)|
  {
    var seen := new bool[256](_ => false);
    count := 0;
    for i := 0 to |key|
      invariant count == |Distinct(key[..i])|
      invariant forall b: byte :: seen[b] <==> b in Distinct(key[..i])
    {
      assert key[..i + 1] == key[..i] + [key[i]];
      assert Distinct(key[..i + 1]) == Distinct(key[..i]) + {key[i]};
      if !seen[key[i]] {
        seen[key[i]] := true;
        count := count + 1;
      }
    }
    assert key[..|key|] == key;
  }

  /** A key is accepted exactly when it parses, is not all printable and has at least 16
      distinct byte values; the error names the first check it fails. */
  method ValidateMasterKey(encoded: Bytes) returns (err: Option<KeyError>)
    ensures err == None <==>
            && ParseMasterKey(encoded).Ok?
            && var key := ParseMasterKey(encoded).value;
               && (exists i | 0 <= i < |key| :: !PrintableByte(key[i]))
               && |Distinct(key)| >= 16
    ensures ParseMasterKey(encoded).Err? ==> err == Some(ParseMasterKey(encoded).error)
    ensures err == Some(Compromised) <==> ParseMasterKey(encoded) == Ok(COMPROMISED_DEFAULT)
    ensures err == Some(Printable) ==>
              ParseMasterKey(encoded).Ok? && forall i | 0 <= i < |ParseMasterKey(encoded).value| :: PrintableByte(ParseMasterKey(encoded).value[i])
    ensures err == Some(TooFewDistinct) ==>
              && ParseMasterKey(encoded).Ok? && |Distinct(ParseMasterKey(encoded).value)| < 16
              && exists i | 0 <= i < |ParseMasterKey(encoded).value| :: !PrintableByte(ParseMasterKey(encoded).value[i])
  {
    var parsed := ParseMasterKey(encoded);
    if parsed.Err? { return Some(parsed.error); }
    var key := parsed.value;
    if key == COMPROMISED_DEFAULT {
      DefaultIsPrintable();
      return Some(Compromised);
    }
    var printable := AllPrintableASCII(key);
    if printable { return Some(Printable); }
    var distinct := DistinctBytes(key);
    if distinct < MIN_DISTINCT { return Some(TooFewDistinct); }
    return None;
  }

  /** So the comparison with the compromised default never decides acceptance: without it
      that key would still be refused. */
  lemma DefaultIsPrintable()
    ensures |COMPROMISED_DEFAULT| == KEY_SIZE
    ensures forall i | 0 <= i < KEY_SIZE :: PrintableByte(COMPROMISED_DEFAULT[i])
  {
    assert forall i | 0 <= i < 16 :: PrintableByte(HEX_DIGITS[i]);
    assert forall i | 0 <= i < 16 :: COMPROMISED_DEFAULT[i] == HEX_DIGITS[i] && COMPROMISED_DEFAULT[i + 16] == HEX_DIGITS[i];
    assert forall i | 16 <= i < 32 :: COMPROMISED_DEFAULT[i] == HEX_DIGITS[i - 16];
  }

  /** It is "0123456789abcdef", twice. */
  lemma DefaultByValue(i: nat)
    requires i < 32
    ensures |COMPROMISED_DEFAULT| == 32
    ensures COMPROMISED_DEFAULT[i] as int == if i % 16 < 10 then '0' as int + i % 16 else 'a' as int + i % 16 - 10
  {
    assert COMPROMISED_DEFAULT[i] == HEX_DIGITS[i % 16];
  }

  /** Rearranging a key's bytes does not change how many are distinct. */
  lemma DistinctIgnoresOrder(key: Bytes, key': Bytes)
    requires multiset(key) == multiset(key')
    ensures |Distinct(key)| == |Distinct(key')|
  {
    assert forall b: byte :: b in key <==> b in multiset(key);
    assert forall b: byte :: b in key' <==> b in multiset(key');
    assert Distinct(key) == Distinct(key');
  }

  /** What parses, and why anything else does not. */
  lemma ParseIff(encoded: Bytes, key: Bytes)
    ensures ParseMasterKey(encoded) == Ok(key) <==> Base64.Decode(encoded) == Some(key) && |key| == 32
    ensures ParseMasterKey(encoded) == Err(NotConfigured) <==> encoded == []
    ensures ParseMasterKey(encoded) == Err(Malformed) <==> Base64.Decode(encoded).None?
    ensures ParseMasterKey(encoded) == Err(WrongLength) <==>
              encoded != [] && Base64.Decode(encoded).Some? && |Base64.Decode(encoded).value| != 32
  {
    assert Base64.Strip([]) == [];
  }

  /** Whether a parse succeeds is decided by the decoded length alone, and every 32-byte
      key has an encoding that parses back to it. */
  lemma ParseOfEncoded(key: Bytes)
    ensures ParseMasterKey(Base64.Encode(key)) ==
            if key == [] then Err(NotConfigured) else if |key| == KEY_SIZE then Ok(key) else Err(WrongLength)
  {
    Base64.DecodeEncode(key);
  }
}
