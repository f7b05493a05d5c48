// The lump-name hash and the bucket chains the directory index is built
// from, together with the reference meaning of a name lookup: the last
// record whose name matches case-insensitively in the wanted namespace.

module LumpHash {
  import opened WadTypes

  /**
   * Bounds on the hash before byte k is folded in: HASH_CAP[k] is the
   * largest value bytes 0 to k-1 can give (every byte 255).
   */
  const HASH_CAP: seq<nat> := [0, 255, 1020, 2295, 4845, 9945, 20145, 40545, 81345]

  /**
   * The hash from byte k on, h being the hash of bytes 0 to k-1: byte k is
   * folded in upper-cased, with weight 3 for byte 1 and 2 after that; the
   * fold stops at a NUL among bytes 1 to 6, and byte 7 is folded in
   * whenever byte 6 was, NUL or not.
   */
  function HashFrom(s: Name, k: nat, h: nat): (r: nat)
    requires 1 <= k <= 7 && h <= HASH_CAP[k]
    ensures h <= r <= 81345
    decreases 8 - k
  {
    if k < 7 && s[k] == NUL then h
    else
      var h' := h * (if k == 1 then 3 else 2) + Upper(s[k]) as int;
      if k == 7 then h' else HashFrom(s, k + 1, h')
  }

  /** W_LumpNameHash: the upper-cased first byte, then HashFrom from byte 1. */
  function LumpNameHash(s: Name): (h: nat)
    ensures h <= 81345
  {
    HashFrom(s, 1, Upper(s[0]) as int)
  }

  /** Two names that agree byte by byte in upper case and in where their NULs are hash alike from byte k on. */
  lemma {:induction false} HashFromAlike(a: Name, b: Name, k: nat, h: nat)
    requires 1 <= k <= 7 && h <= HASH_CAP[k]
    requires forall j :: k <= j < 8 ==> Upper(a[j]) == Upper(b[j]) && (a[j] == NUL <==> b[j] == NUL)
    ensures HashFrom(a, k, h) == HashFrom(b, k, h)
    decreases 8 - k
  {
    if !(k < 7 && a[k] == NUL) && k < 7 {
      HashFromAlike(a, b, k + 1, h * (if k == 1 then 3 else 2) + Upper(a[k]) as int);
    }
  }

  /**
   * Names that strncasecmp calls equal over 8 bytes hash alike, provided
   * both are padded as strncpy leaves them.
   */
  lemma HashIgnoresCase(a: Name, b: Name)
    requires Padded(a) && Padded(b)
    requires StrNCaseEq(a, b, 8)
    ensures LumpNameHash(a) == LumpNameHash(b)
  {
    CaseEqPointwise(a, b, 0);
    forall k | 0 <= k < 8 ensures Upper(a[k]) == Upper(b[k]) && (a[k] == NUL <==> b[k] == NUL) {
      LowerEqSameUpper(a[k], b[k]);
    }
    HashFromAlike(a, b, 1, Upper(a[0]) as int);
  }

  /**
   * Without padding the property fails: a name with a NUL first byte and a
   * letter after it compares equal to the all-NUL name but hashes apart,
   * because the hash looks at byte 1 even when byte 0 is NUL.
   */
  lemma UnpaddedNamesHashApart()
    ensures var a: Name := [0, 65, 0, 0, 0, 0, 0, 0];
      var b: Name := [0, 0, 0, 0, 0, 0, 0, 0];
      StrNCaseEq(a, b, 8) && LumpNameHash(a) != LumpNameHash(b) && !Padded(a)
  {
    var a: Name := [0, 65, 0, 0, 0, 0, 0, 0];
    assert a[0] == NUL && a[1] != NUL;
  }

  /** The chain a name belongs to: its hash modulo the directory size. */
  function Bucket(name: Name, n: nat): (b: nat)
    requires n > 0
    ensures b < n
  {
    LumpNameHash(name) % n
  }

  /** The bucket of every record of a directory, in order. */
  function BucketsOf(s: seq<Lump>, n: nat): (r: seq<nat>)
    requires n > 0
    ensures |r| == |s|
  {
    if |s| == 0 then [] else BucketsOf(s[..|s| - 1], n) + [Bucket(s[|s| - 1].name, n)]
  }

  /** Entry k of BucketsOf is the bucket of record k's name, below n. */
  lemma {:induction false} BucketsOfAt(s: seq<Lump>, n: nat, k: nat)
    requires n > 0 && k < |s|
    ensures BucketsOf(s, n)[k] == Bucket(s[k].name, n) < n
  {
    if k < |s| - 1 {
      BucketsOfAt(s[..|s| - 1], n, k);
    }
  }

  /**
   * The chains depend on the names alone: two directories whose records
   * carry the same names, position by position, share every bucket.
   */
  lemma {:induction false} BucketsOfNames(s: seq<Lump>, t: seq<Lump>, n: nat)
    requires n > 0 && |s| == |t|
    requires forall k :: 0 <= k < |s| ==> s[k].name == t[k].name
    ensures BucketsOf(s, n) == BucketsOf(t, n)
  {
    if |s| > 0 {
      BucketsOfNames(s[..|s| - 1], t[..|t| - 1], n);
    }
  }

  /**
   * The greatest index below i whose bucket is b, or -1: the head of chain
   * b after the first i records have been prepended.
   */
  function LastInBucket(buckets: seq<nat>, b: nat, i: nat): (r: int)
    requires i <= |buckets|
    ensures -1 <= r < i
    ensures r >= 0 ==> buckets[r] == b
    ensures forall k :: r < k < i ==> buckets[k] != b
  {
    if i == 0 then -1
    else if buckets[i - 1] == b then i - 1
    else LastInBucket(buckets, b, i - 1)
  }

  /** strncasecmp(record name, name, 8) == 0 and the same namespace. */
  predicate Matches(l: Lump, name: Name, ns: Namespace) {
    StrNCaseEq(l.name, name, 8) && l.ns == ns
  }

  /** The greatest index below i of a record matching name in ns, or -1. */
  function LastMatchBefore(s: seq<Lump>, i: nat, name: Name, ns: Namespace): (r: int)
    requires i <= |s|
    ensures -1 <= r < i
    ensures r >= 0 ==> Matches(s[r], name, ns)
    ensures forall k :: r < k < i ==> !Matches(s[k], name, ns)
  {
    if i == 0 then -1
    else if Matches(s[i - 1], name, ns) then i - 1
    else LastMatchBefore(s, i - 1, name, ns)
  }

  /** What a name lookup means: the last matching record wins, -1 when none matches. */
  function LastMatch(s: seq<Lump>, name: Name, ns: Namespace): int
  {
    LastMatchBefore(s, |s|, name, ns)
  }

  /**
   * A padded record matching a padded name lies on that name's chain: so
   * records whose bucket differs from the name's cannot match.
   */
  lemma {:induction false} OffChainNoMatch(s: seq<Lump>, n: nat, name: Name, ns: Namespace, lo: int, hi: nat)
    requires n > 0 && -1 <= lo < hi <= |s| && Padded(name)
    requires forall k :: 0 <= k < |s| ==> Padded(s[k].name)
    requires forall k :: lo < k < hi ==> BucketsOf(s, n)[k] != Bucket(name, n)
    ensures forall k :: lo < k < hi ==> !Matches(s[k], name, ns)
  {
    forall k | lo < k < hi ensures !Matches(s[k], name, ns) {
      if Matches(s[k], name, ns) {
        HashIgnoresCase(s[k].name, name);
        BucketsOfAt(s, n, k);
      }
    }
  }

  /** The last match is pinned down by matching and having no match after it. */
  lemma LastMatchUnique(s: seq<Lump>, name: Name, ns: Namespace, r: int)
    requires -1 <= r < |s|
    requires r >= 0 ==> Matches(s[r], name, ns)
    requires forall k :: r < k < |s| ==> !Matches(s[k], name, ns)
    ensures LastMatch(s, name, ns) == r
  {
    var want := LastMatch(s, name, ns);
    assert want >= 0 ==> Matches(s[want], name, ns);
  }
}
