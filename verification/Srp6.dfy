/**
 The SRP6 login handshake. The hash is a parameter: nothing below depends on which function it is.
 Keys, proofs and ephemeral values travel as little-endian byte strings.
 */
module Srp6 {
  import opened ModArith
  import opened Wrappers

  type Byte = x: int | 0 <= x < 256
  type Bytes = seq<Byte>
  type Digest = d: Bytes | |d| == 20 witness seq(20, _ => 0)
  type Hash = Bytes -> Digest

  const EPHEMERAL_LENGTH := 32
  const SESSION_KEY_LENGTH := 40

  const MODULUS: nat := 0x894B645E89E1535BBDAD5B8B290650530801B18EBFBF5E8FAB3C82872A3E9BB7
  const GENERATOR: nat := 7

  type Block = b: Bytes | |b| == EPHEMERAL_LENGTH witness seq(EPHEMERAL_LENGTH, _ => 0)
  type SessionKey = k: Bytes | |k| == SESSION_KEY_LENGTH witness seq(SESSION_KEY_LENGTH, _ => 0)

  // ---------- Byte strings and integers ----------

  /** The big-integer library's `SetBytes`: the value of a big-endian string. */
  function FromBigEndian(s: Bytes): nat
  {
    if s == [] then 0 else 256 * FromBigEndian(s[..|s| - 1]) + s[|s| - 1]
  }

  /** The big-integer library's `Bytes`: the shortest big-endian string with this value. */
  function ToBigEndian(v: nat): Bytes
  {
    if v == 0 then [] else ToBigEndian(v / 256) + [v % 256]
  }

  /** What a little-endian string is worth: byte k counts 256^k. */
  function LittleValue(s: Bytes): nat
  {
    if s == [] then 0 else s[0] + 256 * LittleValue(s[1..])
  }

  /** Byte k of `v`, counting from the least significant. */
  function Digit(v: nat, k: nat): Byte
  {
    if k == 0 then v % 256 else Digit(v / 256, k - 1)
  }

  /** The `size` low-order bytes of `v`, least significant first. */
  function LittleDigits(v: nat, size: nat): Bytes
  {
    seq(size, k requires 0 <= k => Digit(v, k))
  }

  function Power256(n: nat): nat
  {
    if n == 0 then 1 else 256 * Power256(n - 1)
  }

  lemma DigitsStep(v: nat, size: nat)
    requires size > 0
    ensures LittleDigits(v, size) == [v % 256] + LittleDigits(v / 256, size - 1)
  {
  }

  /** Encoding what was decoded returns the same bytes. */
  lemma {:induction false} DigitsOfValue(s: Bytes)
    ensures LittleDigits(LittleValue(s), |s|) == s
  {
    if s != [] {
      DigitsOfValue(s[1..]);
      DigitsStep(LittleValue(s), |s|);
      assert LittleValue(s) % 256 == s[0] && LittleValue(s) / 256 == LittleValue(s[1..]);
    }
  }

  /** Decoding what was encoded returns the same number, as long as it fits. */
  lemma {:induction false} ValueOfDigits(v: nat, size: nat)
    requires v < Power256(size)
    ensures LittleValue(LittleDigits(v, size)) == v
  {
    if size > 0 {
      ValueOfDigits(v / 256, size - 1);
      DigitsStep(v, size);
      assert ([v % 256] + LittleDigits(v / 256, size - 1))[1..] == LittleDigits(v / 256, size - 1);
    }
  }

  lemma {:induction false} LittleValueSnoc(s: Bytes, hi: Byte)
    ensures LittleValue(s + [hi]) == LittleValue(s) + Power256(|s|) * hi
  {
    if s == [] {
      assert [hi][1..] == [];
    } else {
      assert (s + [hi])[1..] == s[1..] + [hi];
      LittleValueSnoc(s[1..], hi);
      Reassociate(256, Power256(|s| - 1), hi);
    }
  }

  /** Reading a big-endian string is reading its reversal as little-endian. */
  lemma {:induction false} BigEndianIsReversedLittle(s: Bytes, r: Bytes)
    requires |r| == |s| && forall i :: 0 <= i < |s| ==> r[|s| - 1 - i] == s[i]
    ensures FromBigEndian(r) == LittleValue(s)
  {
    if s != [] {
      var t := r[..|r| - 1];
      forall i | 0 <= i < |s| - 1 ensures t[|s| - 2 - i] == s[1..][i] {
        assert r[|s| - 1 - (i + 1)] == s[i + 1];
      }
      BigEndianIsReversedLittle(s[1..], t);
      assert r[|s| - 1 - 0] == s[0];
    }
  }

  /** Byte k is the k-th from the right of the shortest big-endian string, or zero past its end. */
  lemma {:induction false} DigitOfBigEndian(v: nat, k: nat)
    ensures Digit(v, k) == if k < |ToBigEndian(v)| then ToBigEndian(v)[|ToBigEndian(v)| - 1 - k] else 0
  {
    if k > 0 {
      DigitOfBigEndian(v / 256, k - 1);
    }
  }

  method LittleInt(data: Bytes) returns (v: nat)
    ensures v == LittleValue(data)
  {
    var reversed := new Byte[|data|](_ => 0);
    for i := 0 to |data|
      invariant forall k :: 0 <= k < i ==> reversed[|data| - 1 - k] == data[k]
    {
      reversed[|data| - 1 - i] := data[i];
    }
    BigEndianIsReversedLittle(data, reversed[..]);
    v := FromBigEndian(reversed[..]);
  }

  method LittleBytes(value: nat, size: nat) returns (result: Block)
    requires size <= EPHEMERAL_LENGTH
    ensures result == LittleDigits(value, size) + seq(EPHEMERAL_LENGTH - size, _ => 0)
  {
    var bytes := ToBigEndian(value);
    var a := new Byte[EPHEMERAL_LENGTH](_ => 0);
    var i := 0;
    while i < |bytes| && i < size
      invariant 0 <= i <= size && i <= |bytes|
      invariant forall k :: 0 <= k < i ==> a[k] == bytes[|bytes| - 1 - k]
      invariant forall k :: i <= k < a.Length ==> a[k] == 0
    {
      a[i] := bytes[|bytes| - 1 - i];
      i := i + 1;
    }
    forall k | 0 <= k < size ensures a[k] == Digit(value, k) {
      DigitOfBigEndian(value, k);
    }
    result := a[..];
  }

  // ---------- Key derivation ----------

  function Evens(s: Bytes): Bytes
  {
    if |s| < 2 then [] else [s[0]] + Evens(s[2..])
  }

  function Odds(s: Bytes): Bytes
  {
    if |s| < 2 then [] else [s[1]] + Odds(s[2..])
  }

  function LeadingZeros(s: Bytes): (n: nat)
    ensures n <= |s|
  {
    if s != [] && s[0] == 0 then 1 + LeadingZeros(s[1..]) else 0
  }

  /** The secret without its leading zero bytes; one byte more goes when that would leave an odd number. */
  function Significant(s: Bytes): (r: Bytes)
    requires |s| % 2 == 0
    ensures |r| % 2 == 0
  {
    var z := LeadingZeros(s);
    s[if z % 2 == 0 then z else z + 1..]
  }

  function Zip(a: Digest, b: Digest): (k: SessionKey)
    ensures forall i :: 0 <= i < 20 ==> k[2 * i] == a[i] && k[2 * i + 1] == b[i]
  {
    seq(SESSION_KEY_LENGTH, i requires 0 <= i < SESSION_KEY_LENGTH => if i % 2 == 0 then a[i / 2] else b[i / 2])
  }

  /** The session key: the hashes of the even and of the odd significant bytes, interleaved. */
  function KeyOf(h: Hash, shared: Block): SessionKey
  {
    Zip(h(Evens(Significant(shared))), h(Odds(Significant(shared))))
  }

  lemma {:induction false} HalvesLength(s: Bytes)
    ensures |Evens(s)| == |Odds(s)| == |s| / 2
  {
    if |s| >= 2 {
      HalvesLength(s[2..]);
    }
  }

  lemma {:induction false} HalvesAt(s: Bytes, k: nat)
    requires 2 * k + 1 < |s|
    ensures k < |Evens(s)| && k < |Odds(s)|
    ensures Evens(s)[k] == s[2 * k] && Odds(s)[k] == s[2 * k + 1]
  {
    HalvesLength(s);
    if k > 0 {
      HalvesAt(s[2..], k - 1);
      assert s[2..][2 * (k - 1)] == s[2 * k] && s[2..][2 * (k - 1) + 1] == s[2 * k + 1];
    }
  }

  lemma {:induction false} LeadingZerosFrom(s: Bytes, p: nat)
    requires p <= |s| && forall k :: 0 <= k < p ==> s[k] == 0
    requires p == |s| || s[p] != 0
    ensures LeadingZeros(s) == p
  {
    if p > 0 {
      LeadingZerosFrom(s[1..], p - 1);
    }
  }

  /** The bytes at `from`, `from + 2`, and so on. */
  function EveryOther(s: Bytes, from: nat): Bytes
    decreases |s| - from
  {
    if from >= |s| then [] else [s[from]] + EveryOther(s, from + 2)
  }

  lemma {:induction false} HalvesAreEveryOther(s: Bytes, from: nat)
    requires from <= |s| && (|s| - from) % 2 == 0
    ensures Evens(s[from..]) == EveryOther(s, from) && Odds(s[from..]) == EveryOther(s, from + 1)
    decreases |s| - from
  {
    if from < |s| {
      HalvesAreEveryOther(s, from + 2);
      assert s[from..][2..] == s[from + 2..];
    }
  }

  lemma SignificantFrom(s: Block, first: nat)
    requires first <= 32 && (forall k :: 0 <= k < first ==> s[k] == 0) && (first < 32 ==> s[first] != 0)
    ensures Significant(s) == s[first + first % 2..]
  {
    LeadingZerosFrom(s, first);
  }

  /**
   What the key is made of: of the bytes from the first that is not zero, or from the one after it when that leaves an
   even number, every other one is hashed into the even places of the key, and the rest into the odd ones.
   */
  lemma KeyIsSpelledOut(h: Hash, s: Block, first: nat)
    requires first <= 32 && (forall k :: 0 <= k < first ==> s[k] == 0) && (first < 32 ==> s[first] != 0)
    ensures var from := first + first % 2;
            KeyOf(h, s) == Zip(h(EveryOther(s, from)), h(EveryOther(s, from + 1)))
  {
    hide EveryOther, Evens, Odds, Significant, Zip;
    SignificantFrom(s, first);
    HalvesAreEveryOther(s, first + first % 2);
  }

  /** Cutting half the zeros from each half leaves the halves of the significant bytes. */
  lemma CutHalves(s: Block, even: Bytes, odd: Bytes, p: nat)
    requires |even| == |odd| == 16
    requires forall k :: 0 <= k < 16 ==> even[k] == s[2 * k] && odd[k] == s[2 * k + 1]
    requires p == (LeadingZeros(s) + 1) / 2
    ensures p <= 16
    ensures even[p..] == Evens(Significant(s)) && odd[p..] == Odds(Significant(s))
  {
    hide Evens, Odds;
    var t := Significant(s);
    assert t == s[2 * p..];
    HalvesLength(t);
    forall k | 0 <= k < |t| / 2 ensures even[p..][k] == Evens(t)[k] && odd[p..][k] == Odds(t)[k] {
      HalvesAt(t, k);
      var at := p + k;
      assert t[2 * k] == s[2 * at] && t[2 * k + 1] == s[2 * at + 1] && even[at] == s[2 * at];
    }
  }

  lemma ZipFrom(a: Digest, b: Digest, k: SessionKey)
    requires forall j :: 0 <= j < 20 ==> k[2 * j] == a[j] && k[2 * j + 1] == b[j]
    ensures k == Zip(a, b)
  {
    forall i | 0 <= i < SESSION_KEY_LENGTH ensures k[i] == Zip(a, b)[i] {
      assert i == 2 * (i / 2) || i == 2 * (i / 2) + 1;
    }
  }

  method Interleave(h: Hash, s: Block) returns (key: SessionKey)
    ensures key == KeyOf(h, s)
  {
    var even := new Byte[EPHEMERAL_LENGTH / 2](_ => 0);
    var odd := new Byte[EPHEMERAL_LENGTH / 2](_ => 0);
    for i := 0 to even.Length
      invariant forall k :: 0 <= k < i ==> even[k] == s[2 * k] && odd[k] == s[2 * k + 1]
    {
      even[i] := s[2 * i];
      odd[i] := s[2 * i + 1];
    }
    var p := 0;
    while p < |s| && s[p] == 0
      invariant p <= |s| && forall k :: 0 <= k < p ==> s[k] == 0
    {
      p := p + 1;
    }
    LeadingZerosFrom(s, p);
    if p % 2 != 0 {
      p := p + 1;
    }
    p := p / 2;
    CutHalves(s, even[..], odd[..], p);
    assert even[..][p..] == even[p..] && odd[..][p..] == odd[p..];
    key := Weave(h(even[p..]), h(odd[p..]));
  }

  method Weave(h0: Digest, h1: Digest) returns (key: SessionKey)
    ensures key == Zip(h0, h1)
  {
    var k := new Byte[SESSION_KEY_LENGTH](_ => 0);
    for i := 0 to 20
      invariant forall j :: 0 <= j < i ==> k[2 * j] == h0[j] && k[2 * j + 1] == h1[j]
    {
      k[2 * i] := h0[i];
      k[2 * i + 1] := h1[i];
    }
    key := k[..];
    ZipFrom(h0, h1, key);
  }

  // ---------- The handshake ----------

  datatype Result<+T> = Ok(value: T) | Err(error: string)
  datatype Proof = Proof(A: Block, M: Digest, K: SessionKey)

  /** The private exponent x, hashed from the credentials and the salt. */
  function PrivateExponent(h: Hash, username: Bytes, password: Bytes, salt: Block): nat
  {
    LittleValue(h(salt + h(username + [58] + password)))
  }

  function VerifierOf(h: Hash, username: Bytes, password: Bytes, salt: Block): Block
  {
    LittleDigits(ModExp(GENERATOR, PrivateExponent(h, username, password, salt), MODULUS), 32)
  }

  /** The server's public value (g^b + 3v) mod N. */
  function ServerPublic(verifier: Block, b: nat): Block
  {
    LittleDigits((ModExp(GENERATOR, b, MODULUS) + 3 * LittleValue(verifier)) % MODULUS, 32)
  }

  function ClientPublic(a: nat): Block
  {
    LittleDigits(ModExp(GENERATOR, a, MODULUS), 32)
  }

  function Scrambler(h: Hash, A: Block, B: Block): nat
  {
    LittleValue(h(A + B))
  }

  /** The client's secret (B - 3g^x)^(a + ux) mod N. */
  function ClientSecret(B: Block, a: nat, u: nat, x: nat): nat
  {
    assert u * x >= 0;
    ModExp((LittleValue(B) - 3 * ModExp(GENERATOR, x, MODULUS)) % MODULUS, a + u * x, MODULUS)
  }

  /** The server's secret (A v^u)^b mod N. */
  function ServerSecret(A: Block, verifier: Block, u: nat, b: nat): nat
  {
    ModExp(LittleValue(A) * ModExp(LittleValue(verifier), u, MODULUS), b, MODULUS)
  }

  function XorByte(x: Byte, y: Byte): Byte
  {
    ((x as bv8) ^ (y as bv8)) as int
  }

  function GroupMask(h: Hash): Digest
  {
    var n, g := h(LittleDigits(MODULUS, 32)), h([7]);
    seq(20, i requires 0 <= i < 20 => XorByte(n[i], g[i]))
  }

  /** The proof of knowledge M that both ends compute over the whole transcript. */
  function TranscriptProof(h: Hash, username: Bytes, salt: Block, A: Block, B: Block, K: SessionKey): Digest
  {
    h(GroupMask(h) + h(username) + salt + A + B + K)
  }

  function ClientProof(h: Hash, username: Bytes, password: Bytes, salt: Block, B: Block, a: nat): Proof
  {
    var A := ClientPublic(a);
    var x := PrivateExponent(h, username, password, salt);
    var K := KeyOf(h, LittleDigits(ClientSecret(B, a, Scrambler(h, A, B), x), 32));
    Proof(A, TranscriptProof(h, username, salt, A, B, K), K)
  }

  /** What a fresh server state answers: the session key exactly when A is nonzero mod N and M is the right proof. */
  function ServerAnswer(h: Hash, username: Bytes, salt: Block, verifier: Block, b: nat, B: Block, A: Block, M: Digest)
    : Option<SessionKey>
  {
    var K := KeyOf(h, LittleDigits(ServerSecret(A, verifier, Scrambler(h, A, B), b), 32));
    if LittleValue(A) % MODULUS != 0 && M == TranscriptProof(h, username, salt, A, B, K) then Some(K) else None
  }

  method MakeGroupMask(h: Hash) returns (mask: Digest)
    ensures mask == GroupMask(h)
    ensures forall i :: 0 <= i < 20 ==>
              mask[i] == ((h(LittleDigits(MODULUS, 32))[i] as bv8) ^ (h([7])[i] as bv8)) as int
  {
    var nBytes := LittleBytes(MODULUS, EPHEMERAL_LENGTH);
    assert nBytes == LittleDigits(MODULUS, 32);
    var nHash := h(nBytes);
    var gHash := h([7]);
    var ng := new Byte[20](_ => 0);
    for i := 0 to 20
      invariant forall k :: 0 <= k < i ==> ng[k] == XorByte(nHash[k], gHash[k])
    {
      ng[i] := XorByte(nHash[i], gHash[i]);
    }
    mask := ng[..];
    assert mask == GroupMask(h);
  }

  method CalculateVerifier(h: Hash, username: Bytes, password: Bytes, salt: Block) returns (verifier: Block)
    ensures verifier == VerifierOf(h, username, password, salt)
    // as a number, 7^x mod N for the hashed credentials x
    ensures LittleValue(verifier) == Pow(7, LittleValue(h(salt + h(username + [58] + password)))) % MODULUS
  {
    var inner := h(username + [58] + password);
    var x := LittleInt(h(salt + inner));
    ResidueRoundTrip(Pow(GENERATOR, x));
    verifier := LittleBytes(ModExp(GENERATOR, x, MODULUS), EPHEMERAL_LENGTH);
    assert verifier == LittleDigits(ModExp(GENERATOR, x, MODULUS), 32);
  }

  method MakeClientProof(h: Hash, username: Bytes, password: Bytes, salt: Block, B: Block, privateKey: Bytes)
    returns (r: Result<Proof>)
    ensures r.Err? <==> privateKey == []
    ensures r.Ok? ==> r.value == ClientProof(h, username, password, salt, B, LittleValue(privateKey))
    // A is 7^a mod N, and M hashes the group, the name, the salt, both public values and the key, in this order
    ensures r.Ok? ==> LittleValue(r.value.A) == Pow(7, LittleValue(privateKey)) % MODULUS
    ensures r.Ok? ==> r.value.M == h(GroupMask(h) + h(username) + salt + r.value.A + B + r.value.K)
  {
    if |privateKey| == 0 {
      return Err("SRP6 client private key is empty");
    }
    var a := LittleInt(privateKey);
    ResidueRoundTrip(Pow(GENERATOR, a));
    var A := LittleBytes(ModExp(GENERATOR, a, MODULUS), EPHEMERAL_LENGTH);
    assert A == ClientPublic(a);
    var u := LittleInt(h(A + B));
    var inner := h(username + [58] + password);
    var x := LittleInt(h(salt + inner));
    var serverValue := LittleInt(B);
    var base := serverValue - 3 * ModExp(GENERATOR, x, MODULUS);
    base := base % MODULUS;
    assert u * x >= 0;
    var shared := LittleBytes(ModExp(base, a + u * x, MODULUS), EPHEMERAL_LENGTH);
    assert shared == LittleDigits(ClientSecret(B, a, u, x), 32);
    var K := Interleave(h, shared);
    var mask := MakeGroupMask(h);
    r := Ok(Proof(A, h(mask + h(username) + salt + A + B + K), K));
  }

  /** The server's side of one login attempt. */
  class ServerState {
    const h: Hash
    const username: Bytes
    const salt: Block
    const verifier: Block
    const b: nat
    const B: Block
    var used: bool

    constructor (h: Hash, username: Bytes, salt: Block, verifier: Block, random: Block)
      ensures this.h == h && this.username == username && this.salt == salt && this.verifier == verifier
      ensures b == LittleValue(random) && B == ServerPublic(verifier, b)
      ensures LittleValue(B) == (Pow(7, b) + 3 * LittleValue(verifier)) % MODULUS
      ensures !used
    {
      var b := LittleInt(random);
      var v := LittleInt(verifier);
      var value := (ModExp(GENERATOR, b, MODULUS) + 3 * v) % MODULUS;
      var B := LittleBytes(value, EPHEMERAL_LENGTH);
      assert B == LittleDigits(value, 32);
      PublicValue(b, v);
      this.h, this.username, this.salt, this.verifier := h, username, salt, verifier;
      this.b, this.B, used := b, B, false;
    }

    /** Answers once; every later call is refused, whatever it carries. */
    method VerifyChallengeResponse(A: Block, clientM: Digest) returns (r: Result<Option<SessionKey>>)
      modifies this
      ensures used
      ensures r.Err? <==> old(used)
      ensures r.Ok? ==> r.value == ServerAnswer(h, username, salt, verifier, b, B, A, clientM)
      // accepted exactly with a nonzero A and the hash over the whole transcript and the key of the secret (A v^u)^b
      ensures r.Ok? ==>
                var S := Pow(LittleValue(A) * Pow(LittleValue(verifier), LittleValue(h(A + B))), b) % MODULUS;
                var K := KeyOf(h, LittleDigits(S, 32));
                r.value == if LittleValue(A) % MODULUS != 0 &&
                              clientM == h(GroupMask(h) + h(username) + salt + A + B + K) then Some(K) else None
    {
      if used {
        return Err("SRP6 state already used");
      }
      used := true;
      AnswerMeans(h, username, salt, verifier, b, B, A, clientM);
      var a := LittleInt(A);
      if a % MODULUS == 0 {
        return Ok(None);
      }
      var u := LittleInt(h(A + B));
      var v := LittleInt(verifier);
      var base := a * ModExp(v, u, MODULUS);
      var shared := LittleBytes(ModExp(base, b, MODULUS), EPHEMERAL_LENGTH);
      assert shared == LittleDigits(ServerSecret(A, verifier, u, b), 32);
      var K := Interleave(h, shared);
      var mask := MakeGroupMask(h);
      var ourM := h(mask + h(username) + salt + A + B + K);
      if ourM != clientM {
        return Ok(None);
      }
      return Ok(Some(K));
    }
  }

  // ---------- Agreement ----------

  lemma ModulusFits()
    ensures MODULUS < Power256(32)
  {
    assert Power256(8) == 0x1_0000_0000_0000_0000;
    assert Power256(16) == 0x1_0000_0000_0000_0000_0000_0000_0000_0000 by {
      assert Power256(12) == 0x1_0000_0000_0000_0000_0000_0000;
    }
    assert Power256(24) == 0x1_0000_0000_0000_0000_0000_0000_0000_0000_0000_0000_0000_0000 by {
      assert Power256(20) == 0x1_0000_0000_0000_0000_0000_0000_0000_0000_0000_0000;
    }
    assert Power256(28) == 0x1_0000_0000_0000_0000_0000_0000_0000_0000_0000_0000_0000_0000_0000_0000;
  }

  /** A residue survives the trip through its 32 bytes. */
  lemma ResidueRoundTrip(v: int)
    ensures LittleValue(LittleDigits(v % MODULUS, 32)) == v % MODULUS
  {
    ModulusFits();
    ValueOfDigits(v % MODULUS, 32);
  }

  lemma PublicValue(b: nat, v: nat)
    ensures var value := (ModExp(GENERATOR, b, MODULUS) + 3 * v) % MODULUS;
            LittleValue(LittleDigits(value, 32)) == value == (Pow(7, b) + 3 * v) % MODULUS
  {
    ResidueRoundTrip(ModExp(GENERATOR, b, MODULUS) + 3 * v);
    ModIsCongruent(Pow(GENERATOR, b), MODULUS);
    CongruentSum(ModExp(GENERATOR, b, MODULUS), Pow(GENERATOR, b), 3 * v, 3 * v, MODULUS);
  }

  /** No power of the generator is a multiple of the modulus, because 7 has an inverse. */
  lemma GeneratorPowerIsNonzero(a: nat)
    ensures ModExp(GENERATOR, a, MODULUS) != 0
  {
    var inverse := 0x621147b13dea16f862e98a87f8bb5df22a4a5a4164641ef8e806a6608be393cc;
    assert GENERATOR * inverse == 1 + 5 * MODULUS;
    CongruentByMultiple(GENERATOR * inverse, 1, 5, MODULUS);
    CongruentPow(GENERATOR * inverse, 1, a, MODULUS);
    PowOfOne(a);
    PowOfProduct(GENERATOR, inverse, a);
    if ModExp(GENERATOR, a, MODULUS) == 0 {
      CongruentProduct(Pow(GENERATOR, a), 0, Pow(inverse, a), Pow(inverse, a), MODULUS);
      assert false;
    }
  }

  /** So the server never refuses an honest client's A as zero. */
  lemma HonestPublicIsNonzero(a: nat)
    ensures LittleValue(ClientPublic(a)) % MODULUS != 0
  {
    GeneratorPowerIsNonzero(a);
    ResidueRoundTrip(Pow(GENERATOR, a));
    ModIsCongruent(Pow(GENERATOR, a), MODULUS);
  }

  lemma {:induction false} PowOfOne(e: nat)
    ensures Pow(1, e) == 1
  {
    if e > 0 {
      PowOfOne(e - 1);
    }
  }

  /** Subtracting 3g^x from (g^b + 3g^x) mod n leaves g^b. */
  lemma ClientBase(n: nat, gb: int, gx: int)
    requires n > 0
    ensures Congruent(((gb % n + 3 * gx) % n - 3 * gx) % n, gb, n)
  {
    ModIsCongruent(gb, n);
    CongruentSum(gb % n, gb, 3 * gx, 3 * gx, n);
    ModIsCongruent(gb % n + 3 * gx, n);
    CongruentSum((gb % n + 3 * gx) % n, gb + 3 * gx, 3 * gx, 3 * gx, n);
    ModIsCongruent((gb % n + 3 * gx) % n - 3 * gx, n);
  }

  lemma ClientPower(n: nat, g: int, b: nat, base: int, e: nat)
    requires n > 0 && Congruent(base, Pow(g, b), n)
    ensures b * e >= 0 && ModExp(base, e, n) == ModExp(g, b * e, n)
  {
    assert b * e >= 0;
    CongruentPow(base, Pow(g, b), e, n);
    PowOfPow(g, b, e);
  }

  lemma ServerBase(n: nat, g: int, a: nat, u: nat, x: nat)
    requires n > 0
    ensures u * x >= 0
    ensures Congruent(ModExp(g, a, n) * ModExp(ModExp(g, x, n), u, n), Pow(g, a + u * x), n)
  {
    assert u * x >= 0 && x * u >= 0 && u * x == x * u;
    var gx := Pow(g, x);
    ModIsCongruent(gx, n);
    CongruentPow(gx % n, gx, u, n);
    ModIsCongruent(Pow(gx % n, u), n);
    PowOfPow(g, x, u);
    ModIsCongruent(Pow(g, a), n);
    CongruentProduct(ModExp(g, a, n), Pow(g, a), ModExp(ModExp(g, x, n), u, n), Pow(g, u * x), n);
    PowSum(g, a, u * x);
  }

  /** The two secrets, as residues: (B - 3g^x)^(a + ux) and (A v^u)^b agree for B = g^b + 3v, A = g^a and v = g^x. */
  lemma ResiduesAgree(n: nat, g: int, x: nat, a: nat, b: nat, u: nat, A: int, B: int, v: int)
    requires n > 0
    requires v == ModExp(g, x, n) && A == ModExp(g, a, n) && B == (ModExp(g, b, n) + 3 * v) % n
    ensures u * x >= 0 && ModExp((B - 3 * v) % n, a + u * x, n) == ModExp(A * ModExp(v, u, n), b, n)
  {
    ClientBase(n, Pow(g, b), v);
    ServerBase(n, g, a, u, x);
    ClientPower(n, g, b, (B - 3 * v) % n, a + u * x);
    ClientPower(n, g, a + u * x, A * ModExp(v, u, n), b);
    assert (a + u * x) * b == b * (a + u * x);
  }

  /** Both ends compute the same secret, for every salt, password and pair of private keys. */
  lemma SecretsAgree(h: Hash, username: Bytes, password: Bytes, salt: Block, a: nat, b: nat, u: nat)
    ensures var verifier := VerifierOf(h, username, password, salt);
            ClientSecret(ServerPublic(verifier, b), a, u, PrivateExponent(h, username, password, salt)) ==
            ServerSecret(ClientPublic(a), verifier, u, b)
  {
    var x := PrivateExponent(h, username, password, salt);
    var verifier := VerifierOf(h, username, password, salt);
    var v := LittleValue(verifier);
    ResidueRoundTrip(Pow(GENERATOR, x));
    ResidueRoundTrip(Pow(GENERATOR, a));
    ResidueRoundTrip(ModExp(GENERATOR, b, MODULUS) + 3 * v);
    ResiduesAgree(MODULUS, GENERATOR, x, a, b, u, LittleValue(ClientPublic(a)), LittleValue(ServerPublic(verifier, b)),
                  v);
  }

  /**
   The handshake completes: a client that knows the password is accepted by the server that holds the
   matching verifier, and both end with the same session key.
   */
  lemma HandshakeAgrees(h: Hash, username: Bytes, password: Bytes, salt: Block, privateKey: Bytes, b: nat)
    ensures var verifier := VerifierOf(h, username, password, salt);
            var B := ServerPublic(verifier, b);
            var client := ClientProof(h, username, password, salt, B, LittleValue(privateKey));
            ServerAnswer(h, username, salt, verifier, b, B, client.A, client.M) == Some(client.K)
  {
    var a := LittleValue(privateKey);
    var verifier := VerifierOf(h, username, password, salt);
    SecretsAgree(h, username, password, salt, a, b, Scrambler(h, ClientPublic(a), ServerPublic(verifier, b)));
    HonestPublicIsNonzero(a);
  }

  /** Both secrets without the reductions on the way: (A v^u)^b and (B - 3 7^x)^(a + ux), modulo the modulus. */
  lemma SecretsSpelledOut(A: Block, B: Block, verifier: Block, a: nat, b: nat, u: nat, x: nat)
    ensures ServerSecret(A, verifier, u, b) == Pow(LittleValue(A) * Pow(LittleValue(verifier), u), b) % MODULUS
    ensures u * x >= 0 &&
            ClientSecret(B, a, u, x) == Pow(LittleValue(B) - 3 * Pow(7, x), a + u * x) % MODULUS
  {
    var v, n := LittleValue(verifier), MODULUS;
    CongruentProduct(LittleValue(A), LittleValue(A), ModExp(v, u, n), Pow(v, u), n);
    CongruentPow(LittleValue(A) * ModExp(v, u, n), LittleValue(A) * Pow(v, u), b, n);
    assert u * x >= 0;
    CongruentProduct(3, 3, ModExp(7, x, n), Pow(7, x), n);
    CongruentSum(LittleValue(B), LittleValue(B), 3 * ModExp(7, x, n), 3 * Pow(7, x), n);
    var base := LittleValue(B) - 3 * ModExp(7, x, n);
    ModIsCongruent(base, n);
    CongruentPow(base % n, LittleValue(B) - 3 * Pow(7, x), a + u * x, n);
  }

  /** What the server answers, spelled out down to the hash. */
  lemma AnswerMeans(h: Hash, username: Bytes, salt: Block, verifier: Block, b: nat, B: Block, A: Block, M: Digest)
    ensures var u := LittleValue(h(A + B));
            var S := Pow(LittleValue(A) * Pow(LittleValue(verifier), u), b) % MODULUS;
            var K := KeyOf(h, LittleDigits(S, 32));
            ServerAnswer(h, username, salt, verifier, b, B, A, M) ==
              if LittleValue(A) % MODULUS != 0 && M == h(GroupMask(h) + h(username) + salt + A + B + K) then Some(K)
              else None
  {
    SecretsSpelledOut(A, B, verifier, 0, b, LittleValue(h(A + B)), 0);
  }

  /** What the client computes, spelled out down to the hash. */
  lemma ClientProofMeans(h: Hash, username: Bytes, password: Bytes, salt: Block, B: Block, a: nat)
    ensures var c := ClientProof(h, username, password, salt, B, a);
            var u, x := LittleValue(h(c.A + B)), LittleValue(h(salt + h(username + [58] + password)));
            && c.A == LittleDigits(Pow(7, a) % MODULUS, 32) && u * x >= 0
            && c.K == KeyOf(h, LittleDigits(Pow(LittleValue(B) - 3 * Pow(7, x), a + u * x) % MODULUS, 32))
            && c.M == h(GroupMask(h) + h(username) + salt + c.A + B + c.K)
  {
    var c := ClientProof(h, username, password, salt, B, a);
    SecretsSpelledOut(c.A, B, B, a, 0, Scrambler(h, c.A, B), PrivateExponent(h, username, password, salt));
  }

  // ---------- What is refused ----------

  ghost predicate Collision(h: Hash, x: Bytes, y: Bytes)
  {
    x != y && h(x) == h(y)
  }

  /** For one state and one A there is one proof that is accepted. */
  lemma AcceptedProofIsUnique(h: Hash, username: Bytes, salt: Block, verifier: Block, b: nat, B: Block, A: Block,
                              M1: Digest, M2: Digest)
    requires ServerAnswer(h, username, salt, verifier, b, B, A, M1).Some?
    requires ServerAnswer(h, username, salt, verifier, b, B, A, M2).Some?
    ensures M1 == M2
  {
  }

  lemma FieldsAreFixed(mask: Digest, i: Digest, s: Block, A: Block, B: Block, K: SessionKey)
    ensures var t := mask + i + s + A + B + K;
            t[20..40] == i && t[40..72] == s && t[72..104] == A && t[104..136] == B && t[136..] == K
  {
  }

  /** A proof binds the whole transcript: equal proofs are of equal transcripts, or exhibit a collision of the hash. */
  lemma TranscriptIsBound(h: Hash, u1: Bytes, s1: Block, A1: Block, B1: Block, K1: SessionKey,
                          u2: Bytes, s2: Block, A2: Block, B2: Block, K2: SessionKey) returns (x: Bytes, y: Bytes)
    requires TranscriptProof(h, u1, s1, A1, B1, K1) == TranscriptProof(h, u2, s2, A2, B2, K2)
    ensures (u1 == u2 && s1 == s2 && A1 == A2 && B1 == B2 && K1 == K2) || Collision(h, x, y)
  {
    FieldsAreFixed(GroupMask(h), h(u1), s1, A1, B1, K1);
    FieldsAreFixed(GroupMask(h), h(u2), s2, A2, B2, K2);
    x, y := GroupMask(h) + h(u1) + s1 + A1 + B1 + K1, GroupMask(h) + h(u2) + s2 + A2 + B2 + K2;
    if x == y {
      x, y := u1, u2;
    }
  }

  /** So a proof that is accepted was made over this very transcript and the server's own key. */
  lemma AcceptedKeyIsTheServers(h: Hash, username: Bytes, salt: Block, verifier: Block, b: nat, B: Block, A: Block,
                                M: Digest,
                                u2: Bytes, s2: Block, A2: Block, B2: Block, K2: SessionKey) returns (x: Bytes, y: Bytes)
    requires ServerAnswer(h, username, salt, verifier, b, B, A, M).Some? && M == TranscriptProof(h, u2, s2, A2, B2, K2)
    ensures (u2 == username && s2 == salt && A2 == A && B2 == B &&
             K2 == ServerAnswer(h, username, salt, verifier, b, B, A, M).value) || Collision(h, x, y)
  {
    x, y := TranscriptIsBound(h, username, salt, A, B, ServerAnswer(h, username, salt, verifier, b, B, A, M).value,
                              u2, s2, A2, B2, K2);
  }

  lemma {:induction false} HalvesDetermine(s: Bytes, t: Bytes)
    requires |s| % 2 == |t| % 2 == 0 && Evens(s) == Evens(t) && Odds(s) == Odds(t)
    ensures s == t
  {
    HalvesLength(s);
    HalvesLength(t);
    if s != [] {
      assert Evens(s)[1..] == Evens(s[2..]) && Odds(s)[1..] == Odds(s[2..]);
      assert Evens(t)[1..] == Evens(t[2..]) && Odds(t)[1..] == Odds(t[2..]);
      HalvesDetermine(s[2..], t[2..]);
      assert s == [s[0], s[1]] + s[2..] && t == [t[0], t[1]] + t[2..];
      assert Evens(s)[0] == s[0] && Odds(s)[0] == s[1];
    }
  }

  lemma UnZip(a1: Digest, b1: Digest, a2: Digest, b2: Digest)
    requires Zip(a1, b1) == Zip(a2, b2)
    ensures a1 == a2 && b1 == b2
  {
    forall i | 0 <= i < 20 ensures a1[i] == a2[i] && b1[i] == b2[i] {
      assert Zip(a1, b1)[2 * i] == a1[i] && Zip(a1, b1)[2 * i + 1] == b1[i];
    }
  }

  /** The session key binds the significant bytes of the secret. */
  lemma KeyIsBound(h: Hash, s: Block, t: Block) returns (x: Bytes, y: Bytes)
    requires KeyOf(h, s) == KeyOf(h, t)
    ensures Significant(s) == Significant(t) || Collision(h, x, y)
  {
    var p, q := Significant(s), Significant(t);
    UnZip(h(Evens(p)), h(Odds(p)), h(Evens(q)), h(Odds(q)));
    x, y := Evens(p), Evens(q);
    if x == y {
      x, y := Odds(p), Odds(q);
      if x == y {
        HalvesDetermine(p, q);
      }
    }
  }

  /**
   A client of whatever name, password and view of the exchange is accepted only when it has the server's name, salt and
   public value right and arrives at the significant bytes of the server's secret, or a collision is exhibited.
   */
  lemma AcceptedClientHasTheSecret(h: Hash, username: Bytes, salt: Block, verifier: Block, b: nat, B: Block,
                                   name: Bytes, password: Bytes, s: Block, Q: Block, a: nat)
    returns (x: Bytes, y: Bytes)
    requires var client := ClientProof(h, name, password, s, Q, a);
             ServerAnswer(h, username, salt, verifier, b, B, client.A, client.M).Some?
    ensures var A := ClientPublic(a);
            var mine := ClientSecret(Q, a, Scrambler(h, A, Q), PrivateExponent(h, name, password, s));
            var theirs := ServerSecret(A, verifier, Scrambler(h, A, B), b);
            (name == username && s == salt && Q == B &&
             Significant(LittleDigits(mine, 32)) == Significant(LittleDigits(theirs, 32))) || Collision(h, x, y)
  {
    var client := ClientProof(h, name, password, s, Q, a);
    x, y := AcceptedKeyIsTheServers(h, username, salt, verifier, b, B, client.A, client.M,
                                    name, s, client.A, Q, client.K);
    if !Collision(h, x, y) {
      x, y := KeyIsBound(h, LittleDigits(ClientSecret(Q, a, Scrambler(h, client.A, Q),
                                                      PrivateExponent(h, name, password, s)), 32),
                         LittleDigits(ServerSecret(client.A, verifier, Scrambler(h, client.A, B), b), 32));
    }
  }

  lemma DigestsAreNumbers(d: Digest, e: Digest)
    requires LittleValue(d) == LittleValue(e)
    ensures d == e
  {
    DigitsOfValue(d);
    DigitsOfValue(e);
  }

  /** The scrambler binds both public values. */
  lemma ScramblerIsBound(h: Hash, A1: Block, B1: Block, A2: Block, B2: Block) returns (x: Bytes, y: Bytes)
    requires Scrambler(h, A1, B1) == Scrambler(h, A2, B2)
    ensures (A1 == A2 && B1 == B2) || Collision(h, x, y)
  {
    DigestsAreNumbers(h(A1 + B1), h(A2 + B2));
    assert (A1 + B1)[..32] == A1 && (A1 + B1)[32..] == B1 && (A2 + B2)[..32] == A2 && (A2 + B2)[32..] == B2;
    x, y := A1 + B1, A2 + B2;
  }

  /** The private exponent binds the salt, the name and the password; names do not contain the separator. */
  lemma ExponentIsBound(h: Hash, u1: Bytes, p1: Bytes, s1: Block, u2: Bytes, p2: Bytes, s2: Block)
    returns (x: Bytes, y: Bytes)
    requires PrivateExponent(h, u1, p1, s1) == PrivateExponent(h, u2, p2, s2) && 58 !in u1 && 58 !in u2
    ensures (s1 == s2 && u1 == u2 && p1 == p2) || Collision(h, x, y)
  {
    var c1, c2 := u1 + [58] + p1, u2 + [58] + p2;
    DigestsAreNumbers(h(s1 + h(c1)), h(s2 + h(c2)));
    assert (s1 + h(c1))[..32] == s1 && (s1 + h(c1))[32..] == h(c1);
    assert (s2 + h(c2))[..32] == s2 && (s2 + h(c2))[32..] == h(c2);
    x, y := s1 + h(c1), s2 + h(c2);
    if x == y {
      x, y := c1, c2;
      if c1 == c2 {
        SeparatorSplits(u1, p1, u2, p2);
      }
    }
  }

  lemma SeparatorInside(u1: Bytes, p1: Bytes, u2: Bytes, p2: Bytes)
    requires u1 + [58] + p1 == u2 + [58] + p2
    ensures |u1| < |u2| ==> 58 in u2
  {
    if |u1| < |u2| {
      assert u2[|u1|] == (u2 + [58] + p2)[|u1|] == (u1 + [58] + p1)[|u1|] == 58;
    }
  }

  lemma SeparatorSplits(u1: Bytes, p1: Bytes, u2: Bytes, p2: Bytes)
    requires u1 + [58] + p1 == u2 + [58] + p2 && 58 !in u1 && 58 !in u2
    ensures u1 == u2 && p1 == p2
  {
    var c1, c2 := u1 + [58] + p1, u2 + [58] + p2;
    SeparatorInside(u1, p1, u2, p2);
    SeparatorInside(u2, p2, u1, p1);
    assert c1[..|u1|] == u1 && c2[..|u2|] == u2 && c1[|u1| + 1..] == p1 && c2[|u2| + 1..] == p2;
  }
}
