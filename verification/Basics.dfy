/** What several modules share: bytes, optional values, bounds, and small facts about the built-in collections. */
module Basics {

  type Bytes = seq<bv8>

  datatype Option<T> = None | Some(value: T)

  function Min(x: int, y: int): int { if x <= y then x else y }

  function Max(x: int, y: int): int { if x >= y then x else y }

  lemma HasElement<T>(s: set<T>) returns (x: T)
    requires s != {}
    ensures x in s
  {
    x :| x in s;
  }

  function Without<T>(s: seq<T>, i: nat): seq<T>
    requires i < |s|
  {
    s[..i] + s[i + 1..]
  }

  lemma WithoutMultiset<T>(s: seq<T>, i: nat)
    requires i < |s|
    ensures multiset(s) == multiset{s[i]} + multiset(Without(s, i))
  {
    assert s == s[..i] + [s[i]] + s[i + 1..];
  }

  // ---------- Pieces of a sequence ----------

  /** `piece` stands in `s` at offset `at`. */
  predicate StandsAt<T(==)>(s: seq<T>, at: int, piece: seq<T>) {
    0 <= at && at + |piece| <= |s| && s[at..at + |piece|] == piece
  }

  lemma SliceOfSlice<T>(s: seq<T>, w: nat, n: nat, p: nat, size: nat)
    requires w + n <= |s| && p + size <= n
    ensures s[w..w + n][p..p + size] == s[w + p..w + p + size]
  {
    var part, whole := s[w..w + n][p..p + size], s[w + p..w + p + size];
    forall k | 0 <= k < size ensures part[k] == whole[k] {
      assert part[k] == s[w..w + n][p + k] == s[w + p + k];
    }
  }

  /** What stands in a piece stands in the sequence as well. */
  lemma PieceOfPiece<T>(s: seq<T>, at: nat, whole: seq<T>, p: nat, piece: seq<T>)
    requires StandsAt(s, at, whole) && StandsAt(whole, p, piece)
    ensures StandsAt(s, at + p, piece)
  {
    SliceOfSlice(s, at, |whole|, p, |piece|);
  }

  /** Two pieces behind each other. */
  lemma PartsStand<T>(s: seq<T>, at: nat, a: seq<T>, b: seq<T>)
    requires StandsAt(s, at, a + b)
    ensures StandsAt(s, at, a) && StandsAt(s, at + |a|, b)
  {
    assert StandsAt(a + b, 0, a) && StandsAt(a + b, |a|, b);
    PieceOfPiece(s, at, a + b, 0, a);
    PieceOfPiece(s, at, a + b, |a|, b);
  }

  /** Overwrites a stretch of a buffer or file in place. */
  method WriteAt(file: array<bv8>, at: nat, bytes: Bytes)
    requires at + |bytes| <= file.Length
    modifies file
    ensures file[..] == old(file[..at]) + bytes + old(file[at + |bytes|..])
  {
    for i := 0 to |bytes|
      invariant forall k :: 0 <= k < i ==> file[at + k] == bytes[k]
      invariant forall k :: 0 <= k < at || at + i <= k < file.Length ==> file[k] == old(file[k])
    {
      file[at + i] := bytes[i];
    }
    assert file[at..at + |bytes|] == bytes;
    assert file[..] == file[..at] + file[at..at + |bytes|] + file[at + |bytes|..];
  }
}
