/**
 Hash chains with an ideal hash: a digest is the data it was computed from, so two digests are
 equal exactly when the data are.  Shared by the audit log and the document audit.
 */
module HashChain {
  import opened Options

  /** The genesis value, a text that is nobody's digest, or the digest of some fields and a previous digest. */
  datatype Digest<+F> = Genesis | Foreign(text: string) | Sha(fields: F, previous: Digest<F>)

  datatype Block<+F> = Block(fields: F, previous: Option<Digest<F>>, integrity: Option<Digest<F>>)

  /** The digest the next block has to link to. */
  function Head<F>(blocks: seq<Block<F>>): Digest<F> {
    if blocks != [] && blocks[|blocks| - 1].integrity.Some? then blocks[|blocks| - 1].integrity.value else Genesis
  }

  /** Every block links to the one before it and carries its own recomputed digest. */
  predicate Chained<F(==)>(blocks: seq<Block<F>>) {
    blocks == []
    || (var last, before := blocks[|blocks| - 1], blocks[..|blocks| - 1];
        Chained(before) && last.previous == Some(Head(before))
            && last.integrity == Some(Sha(last.fields, Head(before))))
  }

  function Depth<F>(d: Digest<F>): nat {
    if d.Sha? then 1 + Depth(d.previous) else 0
  }

  lemma {:induction false} ChainedPrefix<F>(blocks: seq<Block<F>>, k: nat)
    requires Chained(blocks) && k <= |blocks|
    ensures Chained(blocks[..k])
  {
    if k < |blocks| {
      ChainedPrefix(blocks[..|blocks| - 1], k);
      assert blocks[..|blocks| - 1][..k] == blocks[..k];
    } else {
      assert blocks[..k] == blocks;
    }
  }

  /** The i-th digest of a chain is exactly i + 1 hashes deep. */
  lemma {:induction false} DepthIsPosition<F>(blocks: seq<Block<F>>)
    requires Chained(blocks)
    ensures Depth(Head(blocks)) == |blocks|
  {
    if blocks != [] { DepthIsPosition(blocks[..|blocks| - 1]); }
  }

  lemma {:induction false} BlockAt<F>(blocks: seq<Block<F>>, i: nat)
    requires Chained(blocks) && i < |blocks|
    ensures blocks[i].previous == Some(Head(blocks[..i]))
    ensures blocks[i].integrity == Some(Sha(blocks[i].fields, Head(blocks[..i])))
    ensures Depth(blocks[i].integrity.value) == i + 1
  {
    ChainedPrefix(blocks, i + 1);
    assert blocks[..i + 1][..i] == blocks[..i];
    DepthIsPosition(blocks[..i]);
  }

  lemma {:induction false} ChainedAppend<F>(blocks: seq<Block<F>>, b: Block<F>)
    requires Chained(blocks) && b.previous == Some(Head(blocks)) && b.integrity == Some(Sha(b.fields, Head(blocks)))
    ensures Chained(blocks + [b])
  {
    assert (blocks + [b])[..|blocks|] == blocks;
  }

  lemma {:induction false} LinkAt<F>(blocks: seq<Block<F>>, i: nat)
    requires Chained(blocks) && 0 < i < |blocks|
    ensures blocks[i].previous == blocks[i - 1].integrity
    ensures blocks[i].previous.Some? && blocks[i].previous.value.Sha?
        && blocks[i].previous.value.fields == blocks[i - 1].fields
  {
    BlockAt(blocks, i);
    BlockAt(blocks, i - 1);
    assert blocks[..i][i - 1] == blocks[i - 1];
  }

  /** The head commits to the whole history: chains that end alike are alike, block by block. */
  lemma {:induction false} HeadCommits<F>(a: seq<Block<F>>, b: seq<Block<F>>)
    requires Chained(a) && Chained(b) && Head(a) == Head(b)
    ensures a == b
  {
    if a != [] && b != [] {
      HeadCommits(a[..|a| - 1], b[..|b| - 1]);
      assert a == a[..|a| - 1] + [a[|a| - 1]] && b == b[..|b| - 1] + [b[|b| - 1]];
    }
  }

  /** The blocks at the given positions, in the given order: deletions, duplications and reorderings alike. */
  function Select<T>(blocks: seq<T>, positions: seq<nat>): (r: seq<T>)
    requires forall j :: 0 <= j < |positions| ==> positions[j] < |blocks|
    ensures |r| == |positions| && forall j :: 0 <= j < |positions| ==> r[j] == blocks[positions[j]]
  {
    seq(|positions|, j requires 0 <= j < |positions| => blocks[positions[j]])
  }

  /** What can be made of a chain's blocks and still verifies is a prefix of it, and nothing else. */
  lemma {:induction false} OnlyPrefixesVerify<F>(blocks: seq<Block<F>>, positions: seq<nat>)
    requires Chained(blocks) && forall j :: 0 <= j < |positions| ==> positions[j] < |blocks|
    ensures Chained(Select(blocks, positions)) <==> (forall j :: 0 <= j < |positions| ==> positions[j] == j)
  {
    var chosen := Select(blocks, positions);
    if Chained(chosen) {
      forall j | 0 <= j < |positions| ensures positions[j] == j {
        BlockAt(chosen, j);
        BlockAt(blocks, positions[j]);
      }
    } else if forall j :: 0 <= j < |positions| ==> positions[j] == j {
      var n := |positions|;
      assert n > 0 ==> positions[n - 1] == n - 1;
      assert chosen == blocks[..n];
      ChainedPrefix(blocks, n);
      assert false;
    }
  }
}
