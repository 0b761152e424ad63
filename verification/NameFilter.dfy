/**
  * The keyed Bloom filter over employee names (src/employee_name_filter.py). The peppered digest of a
  * normalised name is a parameter giving the two halves h1 and h2; normalisation is a parameter too.
  */
module NameFilter {

  type Digest = string -> (nat, nat)
  type Normalize = string -> string

  function Position(h: (nat, nat), i: nat, numBits: nat): (pos: nat)
    requires numBits > 0
    ensures pos < numBits
  {
    (h.0 + i * h.1) % numBits
  }

  function HashPositions(h: (nat, nat), numHashes: nat, numBits: nat): (ps: seq<nat>)
    requires numBits > 0
    ensures |ps| == numHashes && forall i :: 0 <= i < |ps| ==> ps[i] < numBits
  {
    seq(numHashes, i requires 0 <= i => Position(h, i, numBits))
  }

  /** 1 << i. */
  function Mask(i: nat): bv8
    requires i < 8
  {
    (1 as bv8) << i
  }

  function MaskTable(i: nat): bv8
    requires i < 8
  {
    match i
    case 0 => 1
    case 1 => 2
    case 2 => 4
    case 3 => 8
    case 4 => 16
    case 5 => 32
    case 6 => 64
    case _ => 128
  }

  lemma MaskIsTable(i: nat)
    requires i < 8
    ensures Mask(i) == MaskTable(i)
  {
    if i == 0 {
    } else if i == 1 {
    } else if i == 2 {
    } else if i == 3 {
    } else if i == 4 {
    } else if i == 5 {
    } else if i == 6 {
    } else {
      assert i == 7;
    }
  }

  predicate BitOf(b: bv8, i: nat)
    requires i < 8
  {
    b & Mask(i) != 0
  }

  /** Setting one bit sets that bit and no other. */
  lemma SetBit(b: bv8, i: nat, j: nat)
    requires i < 8 && j < 8
    ensures BitOf(b | Mask(i), j) <==> i == j || BitOf(b, j)
    ensures !BitOf(0, j)
  {
    MaskIsTable(i);
    MaskIsTable(j);
    SetTableBit(b, i, j);
  }

  lemma SetTableBit(b: bv8, i: nat, j: nat)
    requires i < 8 && j < 8
    ensures ((b | MaskTable(i)) & MaskTable(j) != 0) <==> (i == j || b & MaskTable(j) != 0)
    ensures (0 as bv8) & MaskTable(j) == 0
  {
  }

  predicate BitAt(bits: seq<bv8>, pos: nat)
    requires pos / 8 < |bits|
  {
    BitOf(bits[pos / 8], pos % 8)
  }

  /** Every bit index below numBits falls inside the (numBits + 7) / 8 bytes, multiple of 8 or not. */
  lemma IndexInRange(pos: nat, numBits: nat)
    requires pos < numBits
    ensures pos / 8 < (numBits + 7) / 8
  {
  }

  // --------------------------------------------------------------- what the bits should be

  ghost function PositionsOf(digest: Digest, norm: Normalize, name: string, numHashes: nat, numBits: nat): set<nat>
    requires numBits > 0
  {
    Elements(HashPositions(digest(norm(name)), numHashes, numBits))
  }

  ghost function Elements(ps: seq<nat>): set<nat>
  {
    set pos | pos in ps
  }

  lemma ElementsUpTo(ps: seq<nat>, i: nat)
    requires i < |ps|
    ensures Elements(ps[..i + 1]) == Elements(ps[..i]) + {ps[i]}
  {
    assert ps[..i + 1] == ps[..i] + [ps[i]];
  }

  ghost function UnionOf(digest: Digest, norm: Normalize, names: seq<string>, numHashes: nat, numBits: nat): set<nat>
    requires numBits > 0
  {
    if names == [] then {}
    else UnionOf(digest, norm, names[..|names| - 1], numHashes, numBits)
         + PositionsOf(digest, norm, names[|names| - 1], numHashes, numBits)
  }

  ghost predicate ShowsExactly(bits: seq<bv8>, numBits: nat, on: set<nat>)
  {
    && |bits| == (numBits + 7) / 8
    && (forall pos :: pos in on ==> pos < numBits)
    && forall pos: nat :: pos / 8 < |bits| ==> (BitAt(bits, pos) <==> pos in on)
  }

  /** The file written by save(): no pepper in it. */
  datatype Saved = Saved(numBits: nat, numHashes: nat, bits: seq<bv8>, count: nat)

  /** The file holds the filter that adding these names under this pepper gives. */
  ghost predicate Describes(file: Saved, digest: Digest, norm: Normalize, names: seq<string>)
  {
    && file.numBits > 0 && file.count == |names|
    && ShowsExactly(file.bits, file.numBits, UnionOf(digest, norm, names, file.numHashes, file.numBits))
  }

  class HashedNameFilter {
    const digest: Digest
    const norm: Normalize
    const numBits: nat
    const numHashes: nat
    const bits: array<bv8>
    var count: nat
    ghost var names: seq<string>

    ghost predicate Valid()
      reads this, bits
    {
      && numBits > 0 && bits.Length == (numBits + 7) / 8
      && count == |names|
      && ShowsExactly(bits[..], numBits, UnionOf(digest, norm, names, numHashes, numBits))
    }

    constructor (digest: Digest, norm: Normalize, numBits: nat, numHashes: nat)
      requires numBits > 0
      ensures Valid() && fresh(bits) && names == []
      ensures this.digest == digest && this.norm == norm && this.numBits == numBits && this.numHashes == numHashes
    {
      this.digest, this.norm, this.numBits, this.numHashes := digest, norm, numBits, numHashes;
      bits := new bv8[(numBits + 7) / 8](_ => 0);
      count, names := 0, [];
      new;
      forall pos: nat | pos / 8 < bits.Length ensures !BitAt(bits[..], pos) {
        SetBit(0, 0, pos % 8);
      }
    }

    method Add(name: string)
      requires Valid()
      modifies this`count, this`names, bits
      ensures Valid() && names == old(names) + [name]
    {
      SetAll(bits, HashPositions(digest(norm(name)), numHashes, numBits), numBits,
             UnionOf(digest, norm, names, numHashes, numBits));
      names := names + [name];
      assert names[..|names| - 1] == old(names);
      count := count + 1;
    }

    /** Exactly whether every position of the name is among the positions of the names added so far. */
    method MightContain(token: string) returns (yes: bool)
      requires Valid()
      ensures yes <==> PositionsOf(digest, norm, token, numHashes, numBits)
                       <= UnionOf(digest, norm, names, numHashes, numBits)
    {
      var ps := HashPositions(digest(norm(token)), numHashes, numBits);
      for i := 0 to |ps|
        invariant forall k :: 0 <= k < i ==> ps[k] in UnionOf(digest, norm, names, numHashes, numBits)
      {
        IndexInRange(ps[i], numBits);
        assert bits[..][ps[i] / 8] == bits[ps[i] / 8];
        if bits[ps[i] / 8] & Mask(ps[i] % 8) == 0 {
          assert !BitAt(bits[..], ps[i]);
          assert ps[i] in PositionsOf(digest, norm, token, numHashes, numBits);
          return false;
        }
        assert BitAt(bits[..], ps[i]);
      }
      return true;
    }

    /** What is saved is what Load asks for: loading it gives a filter with the same history and answers. */
    method Save() returns (file: Saved)
      requires Valid()
      ensures file.numBits == numBits && file.numHashes == numHashes && file.bits == bits[..]
      ensures Describes(file, digest, norm, names)
    {
      file := Saved(numBits, numHashes, bits[..], count);
    }

    /** Loading a saved filter with the pepper it was built with restores it, history included. */
    constructor Load(digest: Digest, norm: Normalize, file: Saved, ghost history: seq<string>)
      requires Describes(file, digest, norm, history)
      ensures Valid() && fresh(bits) && names == history
      ensures this.digest == digest && this.norm == norm && numBits == file.numBits && numHashes == file.numHashes
      ensures bits[..] == file.bits
    {
      this.digest, this.norm, numBits, numHashes := digest, norm, file.numBits, file.numHashes;
      bits := new bv8[|file.bits|](i requires 0 <= i < |file.bits| => file.bits[i]);
      count, names := file.count, history;
      new;
      assert bits[..] == file.bits;
    }
  }

  /** The loop of add(). */
  method SetAll(bits: array<bv8>, ps: seq<nat>, numBits: nat, ghost on: set<nat>)
    requires ShowsExactly(bits[..], numBits, on)
    requires forall i :: 0 <= i < |ps| ==> ps[i] < numBits
    modifies bits
    ensures ShowsExactly(bits[..], numBits, on + Elements(ps))
  {
    assert on + Elements(ps[..0]) == on;
    for i := 0 to |ps|
      invariant ShowsExactly(bits[..], numBits, on + Elements(ps[..i]))
    {
      var pos := ps[i];
      IndexInRange(pos, numBits);
      ghost var was := bits[..];
      bits[pos / 8] := bits[pos / 8] | Mask(pos % 8);
      assert bits[..] == was[pos / 8 := was[pos / 8] | Mask(pos % 8)];
      OneBitMore(was, bits[..], numBits, on + Elements(ps[..i]), pos);
      ElementsUpTo(ps, i);
      assert on + Elements(ps[..i + 1]) == on + Elements(ps[..i]) + {pos};
    }
    assert ps[..|ps|] == ps;
  }

  lemma OneBitMore(was: seq<bv8>, now: seq<bv8>, numBits: nat, on: set<nat>, pos: nat)
    requires ShowsExactly(was, numBits, on) && pos < numBits && pos / 8 < |was|
    requires now == was[pos / 8 := was[pos / 8] | Mask(pos % 8)]
    ensures ShowsExactly(now, numBits, on + {pos})
  {
    forall q: nat | q / 8 < |now| ensures BitAt(now, q) <==> q in on + {pos} {
      assert BitAt(was, q) <==> q in on;
      BitAfterSet(was, now, pos, q);
    }
  }

  lemma BitAfterSet(was: seq<bv8>, now: seq<bv8>, pos: nat, q: nat)
    requires pos / 8 < |was| && now == was[pos / 8 := was[pos / 8] | Mask(pos % 8)] && q / 8 < |now|
    ensures BitAt(now, q) <==> q == pos || BitAt(was, q)
  {
    if q / 8 == pos / 8 {
      SetBit(was[pos / 8], pos % 8, q % 8);
      SamePlace(q, pos);
    }
  }

  lemma SamePlace(q: nat, pos: nat)
    requires q / 8 == pos / 8
    ensures q == pos <==> q % 8 == pos % 8
  {
  }

  // ------------------------------------------------------------------------ whole histories

  lemma {:induction false} UnionMembers(digest: Digest, norm: Normalize, names: seq<string>, numHashes: nat, numBits: nat, pos: nat)
    requires numBits > 0
    ensures pos in UnionOf(digest, norm, names, numHashes, numBits)
        <==> exists k :: 0 <= k < |names| && pos in PositionsOf(digest, norm, names[k], numHashes, numBits)
  {
    if names != [] {
      var n := |names| - 1;
      UnionMembers(digest, norm, names[..n], numHashes, numBits, pos);
      if pos in UnionOf(digest, norm, names[..n], numHashes, numBits) {
        var k :| 0 <= k < n && pos in PositionsOf(digest, norm, names[..n][k], numHashes, numBits);
        assert names[k] == names[..n][k];
      }
      if k :| 0 <= k < |names| && pos in PositionsOf(digest, norm, names[k], numHashes, numBits) && k != n {
        assert names[..n][k] == names[k];
      }
    }
  }

  /** No false negatives: a name that normalises to an added one always passes the membership test. */
  lemma {:induction false} NoFalseNegatives(digest: Digest, norm: Normalize, names: seq<string>, numHashes: nat, numBits: nat, k: nat, token: string)
    requires numBits > 0 && k < |names| && norm(token) == norm(names[k])
    ensures PositionsOf(digest, norm, token, numHashes, numBits) <= UnionOf(digest, norm, names, numHashes, numBits)
  {
    forall pos | pos in PositionsOf(digest, norm, token, numHashes, numBits)
      ensures pos in UnionOf(digest, norm, names, numHashes, numBits)
    {
      UnionMembers(digest, norm, names, numHashes, numBits, pos);
      assert pos in PositionsOf(digest, norm, names[k], numHashes, numBits);
    }
  }

  ghost function Normalized(norm: Normalize, names: seq<string>): set<string>
  {
    set k | 0 <= k < |names| :: norm(names[k])
  }

  /** The order of additions, repetitions and differences that normalisation removes leave no trace. */
  lemma {:induction false} HistoryIrrelevant(digest: Digest, norm: Normalize, a: seq<string>, b: seq<string>, numHashes: nat, numBits: nat)
    requires numBits > 0 && Normalized(norm, a) == Normalized(norm, b)
    ensures UnionOf(digest, norm, a, numHashes, numBits) == UnionOf(digest, norm, b, numHashes, numBits)
  {
    OneSided(digest, norm, a, b, numHashes, numBits);
    OneSided(digest, norm, b, a, numHashes, numBits);
  }

  lemma {:induction false} OneSided(digest: Digest, norm: Normalize, a: seq<string>, b: seq<string>, numHashes: nat, numBits: nat)
    requires numBits > 0 && Normalized(norm, a) <= Normalized(norm, b)
    ensures UnionOf(digest, norm, a, numHashes, numBits) <= UnionOf(digest, norm, b, numHashes, numBits)
  {
    forall pos | pos in UnionOf(digest, norm, a, numHashes, numBits)
      ensures pos in UnionOf(digest, norm, b, numHashes, numBits)
    {
      UnionMembers(digest, norm, a, numHashes, numBits, pos);
      var k :| 0 <= k < |a| && pos in PositionsOf(digest, norm, a[k], numHashes, numBits);
      assert norm(a[k]) in Normalized(norm, b);
      var j :| 0 <= j < |b| && norm(b[j]) == norm(a[k]);
      NoFalseNegatives(digest, norm, b, numHashes, numBits, j, a[k]);
    }
  }
}
