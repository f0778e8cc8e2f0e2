/** Extension negotiation (do_init): the server's VERSION reply ends with
    name/value pairs, and the client records the ones it knows as bits of
    the connection's `exts` word. The names are compared with strcmp, so
    only the text before a NUL counts. */
module Extensions {
  import opened Wire

  /** strcmp(s, lit) == 0 */
  predicate CEquals(s: string, lit: string) {
    CPrefix(s) == lit
  }

  predicate IsPosixRename(p: ExtPair) {
    CEquals(p.name, "posix-rename@openssh.com") && CEquals(p.value, "1")
  }

  predicate IsStatvfs(p: ExtPair) {
    CEquals(p.name, "statvfs@openssh.com") && CEquals(p.value, "2")
  }

  predicate IsFstatvfs(p: ExtPair) {
    CEquals(p.name, "fstatvfs@openssh.com") && CEquals(p.value, "2")
  }

  /** The bits one pair contributes, with the comparison chain of do_init:
      `if posix-rename ... else if statvfs ...` followed by a separate
      `if fstatvfs ...`. */
  function PairBits(p: ExtPair): bv32 {
    (if IsPosixRename(p) then ExtPosixRename else if IsStatvfs(p) then ExtStatvfs else 0)
    | (if IsFstatvfs(p) then ExtFstatvfs else 0)
  }

  /** The three names are distinct, so the missing `else` changes nothing:
      a pair contributes exactly the bit of the one entry it matches. */
  lemma PairBitsExact(p: ExtPair)
    ensures PairBits(p) & ExtPosixRename != 0 <==> IsPosixRename(p)
    ensures PairBits(p) & ExtStatvfs != 0 <==> IsStatvfs(p)
    ensures PairBits(p) & ExtFstatvfs != 0 <==> IsFstatvfs(p)
    ensures PairBits(p) & !(ExtPosixRename | ExtStatvfs | ExtFstatvfs) == 0
  {
    if IsFstatvfs(p) {
      assert CPrefix(p.name) == "fstatvfs@openssh.com";
      assert !IsPosixRename(p) && !IsStatvfs(p);
    }
  }

  /** The `exts` word after folding in the pairs, in order. */
  function ExtsOf(pairs: seq<ExtPair>): bv32 {
    if pairs == [] then 0 else ExtsOf(pairs[..|pairs| - 1]) | PairBits(pairs[|pairs| - 1])
  }

  lemma ExtsOfPrefix(pairs: seq<ExtPair>, i: nat)
    requires i < |pairs|
    ensures ExtsOf(pairs[..i + 1]) == ExtsOf(pairs[..i]) | PairBits(pairs[i])
  {
    assert pairs[..i + 1][..i] == pairs[..i];
  }

  predicate Advertised(pairs: seq<ExtPair>, bit: bv32) {
    exists k :: 0 <= k < |pairs| && PairBits(pairs[k]) & bit != 0
  }

  /** A bit of `exts` is set exactly when some advertised pair matches the
      table entry for it; no other bit is ever set. */
  lemma {:induction false} ExtsOfExact(pairs: seq<ExtPair>, bit: bv32)
    requires bit == ExtPosixRename || bit == ExtStatvfs || bit == ExtFstatvfs
    ensures ExtsOf(pairs) & bit != 0 <==> Advertised(pairs, bit)
    ensures ExtsOf(pairs) & !(ExtPosixRename | ExtStatvfs | ExtFstatvfs) == 0
  {
    if pairs != [] {
      var init, last := pairs[..|pairs| - 1], pairs[|pairs| - 1];
      ExtsOfExact(init, bit);
      PairBitsExact(last);
      assert ExtsOf(pairs) & bit == (ExtsOf(init) & bit) | (PairBits(last) & bit);
      if Advertised(init, bit) {
        var k :| 0 <= k < |init| && PairBits(init[k]) & bit != 0;
        assert pairs[k] == init[k];
      }
      if Advertised(pairs, bit) && !(PairBits(last) & bit != 0) {
        var k :| 0 <= k < |pairs| && PairBits(pairs[k]) & bit != 0;
        assert k < |init| && init[k] == pairs[k];
      }
    }
  }

  /** The bit for each table entry, stated through the entry itself. */
  lemma {:induction false} ExtsOfMatches(pairs: seq<ExtPair>)
    ensures ExtsOf(pairs) & ExtPosixRename != 0 <==> exists k :: 0 <= k < |pairs| && IsPosixRename(pairs[k])
    ensures ExtsOf(pairs) & ExtStatvfs != 0 <==> exists k :: 0 <= k < |pairs| && IsStatvfs(pairs[k])
    ensures ExtsOf(pairs) & ExtFstatvfs != 0 <==> exists k :: 0 <= k < |pairs| && IsFstatvfs(pairs[k])
  {
    ExtsOfExact(pairs, ExtPosixRename);
    ExtsOfExact(pairs, ExtStatvfs);
    ExtsOfExact(pairs, ExtFstatvfs);
    forall k | 0 <= k < |pairs|
      ensures PairBits(pairs[k]) & ExtPosixRename != 0 <==> IsPosixRename(pairs[k])
      ensures PairBits(pairs[k]) & ExtStatvfs != 0 <==> IsStatvfs(pairs[k])
      ensures PairBits(pairs[k]) & ExtFstatvfs != 0 <==> IsFstatvfs(pairs[k])
    {
      PairBitsExact(pairs[k]);
    }
  }

  /** An unrecognised pair leaves `exts` as it was. */
  lemma UnknownPairIgnored(pairs: seq<ExtPair>, p: ExtPair)
    requires !IsPosixRename(p) && !IsStatvfs(p) && !IsFstatvfs(p)
    ensures ExtsOf(pairs + [p]) == ExtsOf(pairs)
  {
    assert (pairs + [p])[..|pairs|] == pairs;
  }
}
