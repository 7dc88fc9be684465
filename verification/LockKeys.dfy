/** Advisory-lock keys (internal/repository/scan_usage_ledger_repository.go): two signed 32-bit words from
    the first eight bytes of the user id, with the scan kind mixed into the second. */
module LockKeys {
  import opened UsageLedger

  /** Four bytes of a UUID. */
  datatype Quad = Quad(b0: bv8, b1: bv8, b2: bv8, b3: bv8)

  /** A UUID: the key reads the first two quads. */
  datatype UserBytes = UserBytes(high: Quad, low: Quad, rest: seq<bv8>)

  function Pack(b0: bv8, b1: bv8, b2: bv8, b3: bv8): bv32 {
    ((b0 as bv32) << 24) | ((b1 as bv32) << 16) | ((b2 as bv32) << 8) | (b3 as bv32)
  }

  function Fold(q: Quad): bv32 {
    Pack(q.b0, q.b1, q.b2, q.b3)
  }

  /** The signed value of a 32-bit pattern, in two's complement. */
  function Signed(word: bv32): int {
    if word >= 0x8000_0000 then word as int - 0x1_0000_0000 else word as int
  }

  function Mix(kind: Kind): bv8 {
    match kind
    case Wallet => 1
    case Endpoint => 2
    case OtherKind(_) => 3
  }

  function LockKey(user: UserBytes, kind: Kind): (int, int) {
    (Signed(Fold(user.high)), Signed(Fold(user.low) ^ (Mix(kind) as bv32)))
  }

  lemma WordsEqual(a0: bv8, a1: bv8, a2: bv8, a3: bv8, b0: bv8, b1: bv8, b2: bv8, b3: bv8)
    requires Pack(a0, a1, a2, a3) == Pack(b0, b1, b2, b3)
    ensures a0 == b0 && a1 == b1 && a2 == b2 && a3 == b3
  {
  }

  /** A one-byte mix reaches only the last byte of the word. */
  lemma MixReachesLastByte(b0: bv8, b1: bv8, b2: bv8, b3: bv8, mix: bv8)
    ensures Pack(b0, b1, b2, b3) ^ (mix as bv32) == Pack(b0, b1, b2, b3 ^ mix)
  {
  }

  lemma PatternOfSigned(word: bv32)
    ensures (word as int) as bv32 == word
  {
  }

  lemma SignedIsInjective(a: bv32, b: bv32)
    ensures Signed(a) == Signed(b) <==> a == b
  {
    PatternOfSigned(a);
    PatternOfSigned(b);
  }

  /** A signed word determines its four bytes. */
  lemma WordIsInjective(a: Quad, b: Quad)
    ensures Signed(Fold(a)) == Signed(Fold(b)) <==> a == b
  {
    SignedIsInjective(Fold(a), Fold(b));
    if Fold(a) == Fold(b) {
      WordsEqual(a.b0, a.b1, a.b2, a.b3, b.b0, b.b1, b.b2, b.b3);
    }
  }

  function Mixed(q: Quad, mix: bv8): Quad {
    q.(b3 := q.b3 ^ mix)
  }

  lemma KeyWords(user: UserBytes, kind: Kind)
    ensures LockKey(user, kind).0 == Signed(Fold(user.high))
    ensures LockKey(user, kind).1 == Signed(Fold(Mixed(user.low, Mix(kind))))
  {
    var q := user.low;
    MixReachesLastByte(q.b0, q.b1, q.b2, q.b3, Mix(kind));
  }

  /** Two requests contend exactly when their users agree on the first seven bytes and the eighth bytes
      agree once the kinds are mixed in. */
  lemma KeysCollide(user: UserBytes, kind: Kind, other: UserBytes, otherKind: Kind)
    ensures LockKey(user, kind) == LockKey(other, otherKind) <==>
              user.high == other.high && Mixed(user.low, Mix(kind)) == Mixed(other.low, Mix(otherKind))
  {
    hide *;
    KeyWords(user, kind);
    KeyWords(other, otherKind);
    WordIsInjective(user.high, other.high);
    WordIsInjective(Mixed(user.low, Mix(kind)), Mixed(other.low, Mix(otherKind)));
  }

  lemma MixIsReversible(x: bv8, y: bv8, mix: bv8)
    ensures x ^ mix == y ^ mix <==> x == y
  {
  }

  lemma MixesDiffer(x: bv8)
    ensures x ^ 1 != x ^ 2
  {
  }

  /** For one kind two users share a lock exactly when their first eight bytes agree. */
  lemma SameKindContends(user: UserBytes, other: UserBytes, kind: Kind)
    ensures LockKey(user, kind) == LockKey(other, kind) <==> user.high == other.high && user.low == other.low
  {
    KeysCollide(user, kind, other, kind);
    MixIsReversible(user.low.b3, other.low.b3, Mix(kind));
  }

  /** One user's wallet and endpoint requests never contend. */
  lemma KindsNeverContend(user: UserBytes)
    ensures LockKey(user, Wallet) != LockKey(user, Endpoint)
  {
    KeysCollide(user, Wallet, user, Endpoint);
    MixesDiffer(user.low.b3);
  }
}
