/** The streaming search for a byte string in a file read block by block. */
module ByteSearch {

  predicate OccursAt(needle: seq<bv8>, data: seq<bv8>, i: nat) {
    i + |needle| <= |data| && data[i..i + |needle|] == needle
  }

  /** `needle in data`. */
  predicate Occurs(needle: seq<bv8>, data: seq<bv8>) {
    exists i: nat | i <= |data| :: OccursAt(needle, data, i)
  }

  function Joined(blocks: seq<seq<bv8>>): seq<bv8> {
    if blocks == [] then [] else Joined(blocks[..|blocks| - 1]) + blocks[|blocks| - 1]
  }

  /** `data[-m:]` for a positive `m`. */
  function Last(data: seq<bv8>, m: nat): seq<bv8> {
    if |data| <= m then data else data[|data| - m..]
  }

  /** What is kept of the blocks seen is enough to notice every occurrence that
      ends in the next block. */
  lemma TailSuffices(needle: seq<bv8>, seen: seq<bv8>, keep: nat, block: seq<bv8>)
    requires keep >= |needle| - 1 && !Occurs(needle, seen)
    ensures Occurs(needle, Last(seen, keep) + block) <==> Occurs(needle, seen + block)
  {
    var tail, whole := Last(seen, keep), seen + block;
    var data, d := tail + block, |seen| - |tail|;
    assert whole[d..] == data;
    forall j: nat | j + |needle| <= |data|
      ensures OccursAt(needle, data, j) <==> OccursAt(needle, whole, j + d)
    {
      assert whole[d..][j..j + |needle|] == whole[j + d..j + d + |needle|];
    }
    forall i: nat | OccursAt(needle, whole, i) && i < d
      ensures OccursAt(needle, seen, i)
    {
      assert whole[i..i + |needle|] == seen[i..i + |needle|];
    }
    if Occurs(needle, data) {
      var j: nat :| j <= |data| && OccursAt(needle, data, j);
      assert OccursAt(needle, whole, j + d);
    }
    if Occurs(needle, whole) {
      var i: nat :| i <= |whole| && OccursAt(needle, whole, i);
      assert i >= d;
      assert OccursAt(needle, data, i - d);
    }
  }

  /** However the content is cut into non-empty blocks, a non-empty needle is
      reported exactly if it occurs in the content; the empty needle is reported
      exactly if there is any content. */
  method ContainsBytes(blocks: seq<seq<bv8>>, needle: seq<bv8>) returns (found: bool)
    requires forall b | b in blocks :: b != []
    ensures needle != [] ==> (found <==> Occurs(needle, Joined(blocks)))
    ensures needle == [] ==> (found <==> Joined(blocks) != [])
  {
    var keep := if |needle| > 2 then |needle| - 1 else 1;
    var tail: seq<bv8> := [];
    for k := 0 to |blocks|
      invariant tail == Last(Joined(blocks[..k]), keep)
      invariant if needle == [] then k == 0 else !Occurs(needle, Joined(blocks[..k]))
    {
      ghost var seen := Joined(blocks[..k]);
      assert blocks[..k + 1][..k] == blocks[..k];
      assert Joined(blocks[..k + 1]) == seen + blocks[k];
      var data := tail + blocks[k];
      if needle != [] {
        TailSuffices(needle, seen, keep, blocks[k]);
      }
      if Occurs(needle, data) {
        PrefixesJoin(blocks, k + 1);
        OccursLater(needle, seen + blocks[k], Joined(blocks));
        assert blocks[k] in blocks && |Joined(blocks[..k + 1])| > 0;
        return true;
      }
      assert OccursAt([], data, 0);
      tail := Last(data, keep);
      assert tail == Last(seen + blocks[k], keep);
    }
    assert blocks[..|blocks|] == blocks;
    return false;
  }

  lemma {:induction false} PrefixesJoin(blocks: seq<seq<bv8>>, k: nat)
    requires k <= |blocks|
    ensures Joined(blocks[..k]) <= Joined(blocks)
    decreases |blocks|
  {
    if k == |blocks| {
      assert blocks[..k] == blocks;
    } else {
      var front := blocks[..|blocks| - 1];
      PrefixesJoin(front, k);
      assert front[..k] == blocks[..k];
    }
  }

  lemma OccursLater(needle: seq<bv8>, prefix: seq<bv8>, data: seq<bv8>)
    requires prefix <= data && (Occurs(needle, prefix) || needle == [])
    ensures Occurs(needle, data)
  {
    if Occurs(needle, prefix) {
      var i: nat :| i <= |prefix| && OccursAt(needle, prefix, i);
      assert data[i..i + |needle|] == prefix[i..i + |needle|];
      assert OccursAt(needle, data, i);
    } else {
      assert OccursAt(needle, data, 0);
    }
  }
}
