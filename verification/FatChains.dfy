/** Cluster chains in the allocation table.  The table is the sequence of its entries: entry 0 marks a free
    cluster, a value at or above the end-of-chain mark ends a chain, any other value is the next cluster. */
module FatChains {
  import opened Common
  import opened FatCodec

  /** At most this many clusters are freed by one truncation, and by one deletion. */
  const TRUNCATE_LIMIT: nat := 5000
  const DELETE_LIMIT: nat := 10000

  /** Deletion stops at clusters numbered from here on. */
  const LARGE_CLUSTER: nat := 0x0FFF_FF00

  ghost predicate Disjoint(s: seq<nat>, t: seq<nat>) {
    forall c :: c in s ==> c !in t
  }

  /** Following the entries from chain[0] visits exactly the clusters of chain and then ends. */
  ghost predicate IsChain(k: Kind, fat: seq<nat>, chain: seq<nat>) {
    && 0 < |chain|
    && (forall i :: 0 <= i < |chain| ==> 2 <= chain[i] < |fat|)
    && (forall i, j :: 0 <= i < |chain| && 0 <= j < |chain| && j == i + 1 ==> fat[chain[i]] == chain[j])
    && fat[chain[|chain| - 1]] >= EofMarker(k)
  }

  /** A table small enough that no cluster number looks like an end-of-chain mark. */
  predicate SoundTable(k: Kind, fat: seq<nat>) {
    2 <= |fat| <= EofMarker(k)
  }

  /** A chain that ends never visits a cluster twice. */
  lemma ChainAcyclic(k: Kind, fat: seq<nat>, chain: seq<nat>)
    requires SoundTable(k, fat) && IsChain(k, fat, chain)
    ensures NoDuplicates(chain)
  {
    forall i, j | 0 <= i < j < |chain|
      ensures chain[i] != chain[j]
    {
      if chain[i] == chain[j] {
        var m := |chain| - 1 - j;
        assert fat[chain[i + m]] == chain[i + m + 1];
        SameSuffix(k, fat, chain, i, j, m);
        assert false;
      }
    }
  }

  lemma {:induction false} SameSuffix(k: Kind, fat: seq<nat>, chain: seq<nat>, i: nat, j: nat, m: nat)
    requires IsChain(k, fat, chain) && i < j && j + m < |chain| && chain[i] == chain[j]
    ensures chain[i + m] == chain[j + m]
  {
    if m > 0 {
      SameSuffix(k, fat, chain, i, j, m - 1);
      assert fat[chain[i + m - 1]] == chain[i + m] && fat[chain[j + m - 1]] == chain[j + m];
    }
  }

  /** The chains of all files: each ends, and no two share a cluster. */
  ghost predicate Forest(k: Kind, fat: seq<nat>, files: seq<seq<nat>>) {
    && (forall i :: 0 <= i < |files| ==> IsChain(k, fat, files[i]))
    && (forall i, j :: 0 <= i < j < |files| ==> Disjoint(files[i], files[j]))
  }

  ghost function FreeSet(fat: seq<nat>): set<nat> {
    set c | 2 <= c < |fat| && fat[c] == 0
  }

  lemma ForestDisjoint(k: Kind, fat: seq<nat>, files: seq<seq<nat>>, f: nat, i: nat)
    requires Forest(k, fat, files) && f < |files| && i < |files| && f != i
    ensures Disjoint(files[f], files[i])
  {
    if i < f { assert Disjoint(files[i], files[f]); }
  }

  /** A chain depends only on the entries of its own clusters. */
  lemma ChainFrame(k: Kind, fat: seq<nat>, fat': seq<nat>, chain: seq<nat>)
    requires IsChain(k, fat, chain) && |fat'| == |fat|
    requires forall i :: 0 <= i < |chain| ==> fat'[chain[i]] == fat[chain[i]]
    ensures IsChain(k, fat', chain)
  {
  }

  /** Clusters of a chain are not free. */
  lemma ChainNotFree(k: Kind, fat: seq<nat>, chain: seq<nat>, i: nat)
    requires IsChain(k, fat, chain) && i < |chain|
    ensures fat[chain[i]] != 0
  {
    if i < |chain| - 1 {
      assert fat[chain[i]] == chain[i + 1];
    }
  }

  // ----- Operations on the table -----

  /** The lowest free cluster in [from, limit), or 0. */
  function LowestFree(fat: seq<nat>, from: nat, limit: nat): (c: nat)
    requires 2 <= from && limit <= |fat|
    ensures c == 0 || (from <= c < limit && fat[c] == 0)
    ensures forall x :: from <= x < (if c == 0 then limit else c) ==> fat[x] != 0
    decreases limit - from
  {
    if from >= limit then 0 else if fat[from] == 0 then from else LowestFree(fat, from + 1, limit)
  }

  /** The table with the given clusters freed, one after the other. */
  function Clear(fat: seq<nat>, cs: seq<nat>): (r: seq<nat>)
    requires forall i :: 0 <= i < |cs| ==> cs[i] < |fat|
    ensures |r| == |fat|
    ensures forall c :: 0 <= c < |fat| ==> r[c] == if c in cs then 0 else fat[c]
    decreases |cs|
  {
    if cs == [] then fat
    else
      assert forall c :: c in cs <==> c == cs[0] || c in cs[1..];
      Clear(fat[cs[0] := 0], cs[1..])
  }

  /** How many leading clusters of a chain a freeing loop reaches: it gives up after limit clusters and at the
      first cluster numbered cap or above. */
  function Reach(chain: seq<nat>, limit: nat, cap: nat): (m: nat)
    ensures m <= |chain| && m <= limit
    ensures forall i :: 0 <= i < m ==> chain[i] < cap
    ensures m == |chain| || m == limit || chain[m] >= cap
    decreases |chain|
  {
    if chain == [] || limit == 0 || chain[0] >= cap then 0 else 1 + Reach(chain[1..], limit - 1, cap)
  }

  function CreateFat(k: Kind, fat: seq<nat>, c: nat): (r: seq<nat>)
    requires c < |fat|
    ensures |r| == |fat|
  {
    fat[c := EofValue(k)]
  }

  function ExtendFat(k: Kind, fat: seq<nat>, last: nat, c: nat): (r: seq<nat>)
    requires c < |fat| && last < |fat|
    ensures |r| == |fat|
  {
    fat[last := c][c := EofValue(k)]
  }

  /** The clusters that truncating a chain frees: those after the first, up to the limit. */
  function TruncateFreed(k: Kind, chain: seq<nat>): seq<nat>
    requires 0 < |chain|
  {
    chain[1..1 + Reach(chain[1..], TRUNCATE_LIMIT, EofMarker(k))]
  }

  ghost function TruncateFat(k: Kind, fat: seq<nat>, chain: seq<nat>): (r: seq<nat>)
    requires IsChain(k, fat, chain)
    ensures |r| == |fat|
  {
    Clear(fat, TruncateFreed(k, chain))[chain[0] := EofValue(k)]
  }

  /** The clusters that deleting a chain frees. */
  function DeleteFreed(chain: seq<nat>): seq<nat> {
    chain[0..Reach(chain, DELETE_LIMIT, LARGE_CLUSTER)]
  }

  ghost function DeleteFat(k: Kind, fat: seq<nat>, chain: seq<nat>): (r: seq<nat>)
    requires IsChain(k, fat, chain)
    ensures |r| == |fat|
  {
    Clear(fat, DeleteFreed(chain))
  }

  // ----- The forest is kept -----

  /** Allocating the first cluster of a new file. */
  lemma CreateKeepsForest(k: Kind, fat: seq<nat>, files: seq<seq<nat>>, c: nat)
    requires SoundTable(k, fat) && Forest(k, fat, files) && 2 <= c < |fat| && fat[c] == 0
    ensures Forest(k, CreateFat(k, fat, c), files + [[c]])
    ensures FreeSet(CreateFat(k, fat, c)) == FreeSet(fat) - {c} && c in FreeSet(fat)
  {
    var fat', files' := CreateFat(k, fat, c), files + [[c]];
    forall i | 0 <= i < |files|
      ensures IsChain(k, fat', files[i]) && c !in files[i]
    {
      forall x | 0 <= x < |files[i]| ensures files[i][x] != c { ChainNotFree(k, fat, files[i], x); }
      ChainFrame(k, fat, fat', files[i]);
    }
    forall i, j | 0 <= i < j < |files'| ensures Disjoint(files'[i], files'[j]) {
      if j < |files| { assert files'[i] == files[i] && files'[j] == files[j]; }
    }
  }

  /** Linking a fresh cluster behind the last one of a file. */
  lemma ExtendKeepsForest(k: Kind, fat: seq<nat>, files: seq<seq<nat>>, f: nat, c: nat)
    requires SoundTable(k, fat) && Forest(k, fat, files) && f < |files| && 2 <= c < |fat| && fat[c] == 0
    ensures var chain := files[f];
            var fat' := ExtendFat(k, fat, chain[|chain| - 1], c);
            && Forest(k, fat', files[f := chain + [c]])
            && FreeSet(fat') == FreeSet(fat) - {c} && c in FreeSet(fat)
  {
    var chain := files[f];
    var fat', files' := ExtendFat(k, fat, chain[|chain| - 1], c), files[f := chain + [c]];
    ChainNotFree(k, fat, chain, |chain| - 1);
    ExtendChain(k, fat, chain, c);
    forall i | 0 <= i < |files| && i != f
      ensures IsChain(k, fat', files[i]) && c !in files[i]
    {
      ForestDisjoint(k, fat, files, f, i);
      ExtendKeepsOther(k, fat, chain, files[i], c);
    }
    hide IsChain;
    forall i, j | 0 <= i < j < |files'| ensures Disjoint(files'[i], files'[j]) {
      assert Disjoint(files[i], files[j]);
    }
  }

  lemma ExtendChain(k: Kind, fat: seq<nat>, chain: seq<nat>, c: nat)
    requires SoundTable(k, fat) && IsChain(k, fat, chain) && 2 <= c < |fat| && fat[c] == 0
    ensures IsChain(k, ExtendFat(k, fat, chain[|chain| - 1], c), chain + [c])
    ensures c !in chain
  {
    ChainAcyclic(k, fat, chain);
    forall x | 0 <= x < |chain| ensures chain[x] != c { ChainNotFree(k, fat, chain, x); }
  }

  lemma ExtendKeepsOther(k: Kind, fat: seq<nat>, chain: seq<nat>, other: seq<nat>, c: nat)
    requires IsChain(k, fat, chain) && IsChain(k, fat, other) && Disjoint(chain, other) && 2 <= c < |fat| && fat[c] == 0
    ensures IsChain(k, ExtendFat(k, fat, chain[|chain| - 1], c), other)
    ensures c !in other
  {
    forall x | 0 <= x < |other| ensures other[x] != c { ChainNotFree(k, fat, other, x); }
    assert chain[|chain| - 1] in chain;
    assert forall x :: 0 <= x < |other| ==> other[x] in other;
    ChainFrame(k, fat, ExtendFat(k, fat, chain[|chain| - 1], c), other);
  }

  /** Freeing some clusters of one chain leaves the other chains alone and frees exactly those clusters. */
  lemma ClearKeepsOthers(k: Kind, fat: seq<nat>, chain: seq<nat>, cs: seq<nat>, other: seq<nat>)
    requires IsChain(k, fat, other) && (forall c :: c in cs ==> c in chain) && Disjoint(chain, other)
    requires forall i :: 0 <= i < |cs| ==> cs[i] < |fat|
    ensures IsChain(k, Clear(fat, cs), other)
  {
    forall i | 0 <= i < |other| ensures other[i] !in cs { assert other[i] in other; }
    ChainFrame(k, fat, Clear(fat, cs), other);
  }

  lemma {:induction false} ElementsCount(s: seq<nat>)
    requires NoDuplicates(s)
    ensures |Elements(s)| == |s|
    decreases |s|
  {
    if s != [] {
      var n := |s| - 1;
      ElementsCount(s[..n]);
      assert Elements(s) == Elements(s[..n]) + {s[n]};
    }
  }

  lemma FreedSet(fat: seq<nat>, cs: seq<nat>)
    requires forall i :: 0 <= i < |cs| ==> 2 <= cs[i] < |fat| && fat[cs[i]] != 0
    ensures FreeSet(Clear(fat, cs)) == FreeSet(fat) + Elements(cs) && FreeSet(fat) !! Elements(cs)
  {
    hide Clear;
  }

  /** Freeing a run of clusters of one chain adds exactly those clusters to the free set. */
  lemma ClearFreeSet(k: Kind, fat: seq<nat>, chain: seq<nat>, a: nat, b: nat)
    requires SoundTable(k, fat) && IsChain(k, fat, chain) && a <= b <= |chain|
    ensures var cs := chain[a..b];
            && (forall i :: 0 <= i < |cs| ==> cs[i] < |fat|)
            && FreeSet(Clear(fat, cs)) == FreeSet(fat) + Elements(cs)
            && |FreeSet(Clear(fat, cs))| == |FreeSet(fat)| + b - a
  {
    ChainSlice(k, fat, chain, a, b);
    hide IsChain, Clear, FreeSet, Elements, NoDuplicates;
    FreedSet(fat, chain[a..b]);
    ElementsCount(chain[a..b]);
  }

  lemma ChainSlice(k: Kind, fat: seq<nat>, chain: seq<nat>, a: nat, b: nat)
    requires SoundTable(k, fat) && IsChain(k, fat, chain) && a <= b <= |chain|
    ensures var cs := chain[a..b];
            && NoDuplicates(cs)
            && forall i :: 0 <= i < |cs| ==> 2 <= cs[i] < |fat| && fat[cs[i]] != 0
  {
    ChainAcyclic(k, fat, chain);
    forall x | a <= x < b
      ensures 2 <= chain[x] < |fat| && fat[chain[x]] != 0
    {
      ChainNotFree(k, fat, chain, x);
    }
    hide IsChain;
    assert forall i :: 0 <= i < b - a ==> chain[a..b][i] == chain[a + i];
  }

  /** Truncating a file: its chain becomes its first cluster. */
  lemma TruncateKeepsForest(k: Kind, fat: seq<nat>, files: seq<seq<nat>>, f: nat)
    requires SoundTable(k, fat) && Forest(k, fat, files) && f < |files|
    ensures var chain := files[f];
            var fat' := TruncateFat(k, fat, chain);
            && Forest(k, fat', files[f := [chain[0]]])
            && |FreeSet(fat')| == |FreeSet(fat)| + Min(|chain| - 1, TRUNCATE_LIMIT)
  {
    var chain := files[f];
    var cs := TruncateFreed(k, chain);
    var fat', files' := TruncateFat(k, fat, chain), files[f := [chain[0]]];
    TruncateFreeSet(k, fat, chain);
    forall i | 0 <= i < |files| && i != f
      ensures IsChain(k, fat', files[i])
    {
      ForestDisjoint(k, fat, files, f, i);
      TruncateKeepsOther(k, fat, chain, files[i]);
    }
    hide Clear, TruncateFat;
    forall i, j | 0 <= i < j < |files'| ensures Disjoint(files'[i], files'[j]) {
      assert Disjoint(files[i], files[j]);
      assert chain[0] in files[f];
    }
  }

  lemma TruncateKeepsOther(k: Kind, fat: seq<nat>, chain: seq<nat>, other: seq<nat>)
    requires IsChain(k, fat, chain) && IsChain(k, fat, other) && Disjoint(chain, other)
    ensures IsChain(k, TruncateFat(k, fat, chain), other)
  {
    hide Clear, Reach;
    var cs := TruncateFreed(k, chain);
    ClearKeepsOthers(k, fat, chain, cs, other);
    assert chain[0] in chain;
    ChainFrame(k, Clear(fat, cs), TruncateFat(k, fat, chain), other);
  }

  lemma TruncateFreeSet(k: Kind, fat: seq<nat>, chain: seq<nat>)
    requires SoundTable(k, fat) && IsChain(k, fat, chain)
    ensures var fat' := TruncateFat(k, fat, chain);
            && IsChain(k, fat', [chain[0]])
            && |FreeSet(fat')| == |FreeSet(fat)| + Min(|chain| - 1, TRUNCATE_LIMIT)
  {
    hide Clear, Reach, FreeSet, Elements;
    var cs := TruncateFreed(k, chain);
    TruncateCount(k, fat, chain);
    FirstNotFreed(k, fat, chain);
    ClearFreeSet(k, fat, chain, 1, 1 + |cs|);
    ChainNotFree(k, fat, chain, 0);
    UsedUpdate(Clear(fat, cs), chain[0], EofValue(k));
  }

  lemma FirstNotFreed(k: Kind, fat: seq<nat>, chain: seq<nat>)
    requires SoundTable(k, fat) && IsChain(k, fat, chain)
    ensures chain[0] !in TruncateFreed(k, chain)
  {
    ChainAcyclic(k, fat, chain);
    hide IsChain, Reach;
    var cs := TruncateFreed(k, chain);
    assert forall i :: 0 <= i < |cs| ==> cs[i] == chain[1 + i];
  }

  lemma UsedUpdate(fat: seq<nat>, c: nat, v: nat)
    requires c < |fat| && fat[c] != 0 && v != 0
    ensures FreeSet(fat[c := v]) == FreeSet(fat)
  {
  }

  function Min(a: int, b: int): int {
    if a < b then a else b
  }

  /** Cluster numbers never stop a truncation early. */
  lemma TruncateCount(k: Kind, fat: seq<nat>, chain: seq<nat>)
    requires SoundTable(k, fat) && IsChain(k, fat, chain)
    ensures |TruncateFreed(k, chain)| == Min(|chain| - 1, 5000)
  {
    var m := Reach(chain[1..], TRUNCATE_LIMIT, EofMarker(k));
    if m < |chain| - 1 {
      assert chain[1..][m] == chain[1 + m] < EofMarker(k);
    }
  }

  ghost function Without(files: seq<seq<nat>>, f: nat): (r: seq<seq<nat>>)
    requires f < |files|
    ensures |r| == |files| - 1
  {
    files[..f] + files[f + 1..]
  }

  lemma WithoutAt(files: seq<seq<nat>>, f: nat, i: nat)
    requires f < |files| && i < |files| - 1
    ensures Without(files, f)[i] == files[if i < f then i else i + 1]
  {
  }

  /** Deleting a file: its chain leaves the forest. */
  lemma DeleteKeepsForest(k: Kind, fat: seq<nat>, files: seq<seq<nat>>, f: nat)
    requires SoundTable(k, fat) && Forest(k, fat, files) && f < |files|
    ensures var fat' := DeleteFat(k, fat, files[f]);
            && Forest(k, fat', Without(files, f))
            && |FreeSet(fat')| == |FreeSet(fat)| + |DeleteFreed(files[f])|
  {
    hide Clear, Reach, Without;
    var chain := files[f];
    var cs, files' := DeleteFreed(chain), Without(files, f);
    var fat' := Clear(fat, cs);
    ClearFreeSet(k, fat, chain, 0, |cs|);
    forall i | 0 <= i < |files'|
      ensures IsChain(k, fat', files'[i])
    {
      var x := if i < f then i else i + 1;
      WithoutAt(files, f, i);
      ForestDisjoint(k, fat, files, f, x);
      ClearKeepsOthers(k, fat, chain, cs, files[x]);
    }
    hide IsChain, Disjoint;
    forall i, j | 0 <= i < j < |files'| ensures Disjoint(files'[i], files'[j]) {
      WithoutAt(files, f, i);
      WithoutAt(files, f, j);
    }
  }

  /** A file whose clusters all lie below the deletion bound is freed whole, or up to the limit. */
  lemma DeleteCount(chain: seq<nat>)
    requires forall c :: c in chain ==> c < 0x0FFF_FF00
    ensures |DeleteFreed(chain)| == Min(|chain|, 10000)
  {
    var m := Reach(chain, DELETE_LIMIT, LARGE_CLUSTER);
    if m < |chain| {
      assert chain[m] in chain;
    }
  }

  // ----- Whole runs -----

  /** The table together with the chains of the files, and the number of clusters lost so far: allocated,
      but in no chain. */
  datatype State = State(fat: seq<nat>, files: seq<seq<nat>>, lost: nat)

  datatype Step = Create | Extend(f: nat) | Truncate(f: nat) | Delete(f: nat)

  function Total(files: seq<seq<nat>>): nat {
    if files == [] then 0 else |files[0]| + Total(files[1..])
  }

  ghost predicate Inv(k: Kind, s: State) {
    SoundTable(k, s.fat) && Forest(k, s.fat, s.files)
  }

  /** One step of the driver; limit is the bound of its search for a free cluster.  A step that finds no free
      cluster, or names no file, changes nothing. */
  ghost function Apply(k: Kind, limit: nat, s: State, step: Step): State
    requires Inv(k, s) && limit <= |s.fat|
  {
    var c := LowestFree(s.fat, 2, limit);
    match step
    case Create =>
      if c == 0 then s else State(CreateFat(k, s.fat, c), s.files + [[c]], s.lost)
    case Extend(f) =>
      if c == 0 || f >= |s.files| then s
      else
        var chain := s.files[f];
        State(ExtendFat(k, s.fat, chain[|chain| - 1], c), s.files[f := chain + [c]], s.lost)
    case Truncate(f) =>
      if f >= |s.files| then s
      else
        var chain := s.files[f];
        State(TruncateFat(k, s.fat, chain), s.files[f := [chain[0]]], s.lost + |chain| - 1 - |TruncateFreed(k, chain)|)
    case Delete(f) =>
      if f >= |s.files| then s
      else
        var chain := s.files[f];
        State(DeleteFat(k, s.fat, chain), Without(s.files, f), s.lost + |chain| - |DeleteFreed(chain)|)
  }

  lemma {:induction false} TotalConcat(a: seq<seq<nat>>, b: seq<seq<nat>>)
    ensures Total(a + b) == Total(a) + Total(b)
    decreases |a|
  {
    if a == [] {
      assert a + b == b;
    } else {
      TotalConcat(a[1..], b);
      assert (a + b)[1..] == a[1..] + b;
    }
  }

  lemma TotalUpdate(files: seq<seq<nat>>, f: nat, chain: seq<nat>)
    requires f < |files|
    ensures Total(files[f := chain]) == Total(files) - |files[f]| + |chain|
    ensures Total(Without(files, f)) == Total(files) - |files[f]|
  {
    var a, b := files[..f], files[f + 1..];
    assert files == a + ([files[f]] + b) && files[f := chain] == a + ([chain] + b);
    TotalConcat(a, [files[f]] + b);
    TotalConcat(a, [chain] + b);
    TotalConcat([files[f]], b);
    TotalConcat([chain], b);
    TotalConcat(a, b);
  }

  lemma TotalAppend(files: seq<seq<nat>>, chain: seq<nat>)
    ensures Total(files + [chain]) == Total(files) + |chain|
  {
    TotalConcat(files, [chain]);
  }

  /** Every step keeps the forest, and no cluster appears or disappears: free clusters, clusters in files and
      lost clusters add up to the same number. */
  lemma StepKeepsInv(k: Kind, limit: nat, s: State, step: Step)
    requires Inv(k, s) && limit <= |s.fat|
    ensures var s' := Apply(k, limit, s, step);
            && Inv(k, s') && |s'.fat| == |s.fat|
            && |FreeSet(s'.fat)| + Total(s'.files) + s'.lost == |FreeSet(s.fat)| + Total(s.files) + s.lost
  {
    hide LowestFree, Total, IsChain, Disjoint, FreeSet, Clear, Reach;
    var c := LowestFree(s.fat, 2, limit);
    match step
    case Create =>
      if c != 0 {
        CreateKeepsForest(k, s.fat, s.files, c);
        TotalAppend(s.files, [c]);
      }
    case Extend(f) =>
      if c != 0 && f < |s.files| {
        ExtendKeepsForest(k, s.fat, s.files, f, c);
        TotalUpdate(s.files, f, s.files[f] + [c]);
      }
    case Truncate(f) =>
      if f < |s.files| {
        TruncateKeepsForest(k, s.fat, s.files, f);
        TruncateCount(k, s.fat, s.files[f]);
        TotalUpdate(s.files, f, [s.files[f][0]]);
      }
    case Delete(f) =>
      if f < |s.files| {
        DeleteKeepsForest(k, s.fat, s.files, f);
        TotalUpdate(s.files, f, []);
      }
  }

  /** Over whole runs: the chains stay finite, terminated and disjoint, and clusters are conserved. */
  ghost function Run(k: Kind, limit: nat, s: State, steps: seq<Step>): (s': State)
    requires Inv(k, s) && limit <= |s.fat|
    ensures Inv(k, s') && |s'.fat| == |s.fat|
    ensures |FreeSet(s'.fat)| + Total(s'.files) + s'.lost == |FreeSet(s.fat)| + Total(s.files) + s.lost
    decreases |steps|
  {
    if steps == [] then s
    else
      StepKeepsInv(k, limit, s, steps[0]);
      Run(k, limit, Apply(k, limit, s, steps[0]), steps[1..])
  }

  /** Exactly when a step loses no cluster: it does not truncate or delete a file beyond the loop limits. */
  lemma StepLosesNothing(k: Kind, limit: nat, s: State, step: Step)
    requires Inv(k, s) && limit <= |s.fat|
    ensures Apply(k, limit, s, step).lost == s.lost <==>
              match step
              case Truncate(f) => f < |s.files| ==> |s.files[f]| <= 5001
              case Delete(f) => f < |s.files| ==>
                |s.files[f]| <= 10000 && (forall c :: c in s.files[f] ==> c < 0x0FFF_FF00)
              case _ => true
  {
    hide LowestFree, Clear;
    match step
    case Truncate(f) =>
      if f < |s.files| { TruncateCount(k, s.fat, s.files[f]); }
    case Delete(f) =>
      if f < |s.files| {
        var chain := s.files[f];
        if |chain| <= DELETE_LIMIT && forall c :: c in chain ==> c < LARGE_CLUSTER {
          DeleteCount(chain);
        }
      }
    case _ =>
  }

  // ----- What the search leaves alone -----

  /** Every cluster from limit on is free. */
  ghost predicate UnusedFrom(fat: seq<nat>, limit: nat) {
    forall c :: limit <= c < |fat| ==> fat[c] == 0
  }

  /** A free cluster that the search does not look at is still free after a step. */
  lemma StepKeepsFree(k: Kind, limit: nat, s: State, step: Step, c: nat)
    requires Inv(k, s) && limit <= |s.fat| && limit <= c < |s.fat| && s.fat[c] == 0
    ensures |Apply(k, limit, s, step).fat| == |s.fat| && Apply(k, limit, s, step).fat[c] == 0
  {
    hide LowestFree, Reach, Disjoint;
    if !step.Create? && step.f < |s.files| {
      var chain := s.files[step.f];
      ChainNotFree(k, s.fat, chain, 0);
      ChainNotFree(k, s.fat, chain, |chain| - 1);
    }
  }

  /** It stays free in every run. */
  lemma {:induction false} RunKeepsFree(k: Kind, limit: nat, s: State, steps: seq<Step>, c: nat)
    requires Inv(k, s) && limit <= |s.fat| && limit <= c < |s.fat| && s.fat[c] == 0
    ensures Run(k, limit, s, steps).fat[c] == 0
    decreases |steps|
  {
    hide Apply, Inv;
    if steps != [] {
      StepKeepsInv(k, limit, s, steps[0]);
      StepKeepsFree(k, limit, s, steps[0], c);
      RunKeepsFree(k, limit, Apply(k, limit, s, steps[0]), steps[1..], c);
    }
  }

  lemma StepKeepsUnused(k: Kind, limit: nat, used: nat, s: State, step: Step)
    requires Inv(k, s) && limit <= |s.fat| && limit <= used && UnusedFrom(s.fat, used)
    ensures UnusedFrom(Apply(k, limit, s, step).fat, used)
  {
    hide Apply, Inv;
    StepKeepsInv(k, limit, s, step);
    forall c | used <= c < |s.fat| ensures Apply(k, limit, s, step).fat[c] == 0 {
      StepKeepsFree(k, limit, s, step, c);
    }
  }

  /** No chain leads into clusters that are free. */
  lemma ChainBelow(k: Kind, fat: seq<nat>, limit: nat, chain: seq<nat>)
    requires IsChain(k, fat, chain) && UnusedFrom(fat, limit)
    ensures forall i :: 0 <= i < |chain| ==> chain[i] < limit
  {
    forall i | 0 <= i < |chain| ensures chain[i] < limit {
      ChainNotFree(k, fat, chain, i);
    }
  }

  /** A search finds nothing exactly if every free cluster lies at or behind its limit. */
  lemma SearchExact(fat: seq<nat>, limit: nat)
    requires limit <= |fat|
    ensures LowestFree(fat, 2, limit) == 0 <==> forall c :: c in FreeSet(fat) ==> limit <= c
  {
    hide LowestFree;
    var c := LowestFree(fat, 2, limit);
    if c != 0 {
      assert c in FreeSet(fat);
    }
  }

  // ----- Runs that lose clusters -----

  /** Entry c of a table whose first n clusters form one chain, in order. */
  function RowEntry(k: Kind, n: nat, c: nat): nat {
    if c < 2 || n + 2 <= c then 0 else if c < n + 1 then c + 1 else EofValue(k)
  }

  /** A volume with one file, of the first n clusters. */
  function OneFile(k: Kind, size: nat, n: nat): State {
    State(seq(size, c requires 0 <= c => RowEntry(k, n, c)), [seq(n, i requires 0 <= i => i + 2)], 0)
  }

  /** A volume without files. */
  function Empty(size: nat): State {
    State(seq(size, _ => 0), [], 0)
  }

  lemma OneFileInv(k: Kind, size: nat, n: nat)
    requires 0 < n && n + 2 <= size <= EofMarker(k)
    ensures Inv(k, OneFile(k, size, n))
  {
  }

  /** As long as the search looks at the next cluster, an extension takes it; then the volume counts as full. */
  lemma OneFileGrows(k: Kind, size: nat, limit: nat, n: nat)
    requires 0 < n && n + 2 <= limit <= size <= EofMarker(k) && Inv(k, OneFile(k, size, n))
    ensures Apply(k, limit, OneFile(k, size, n), Extend(0)) ==
            if n + 2 < limit then OneFile(k, size, n + 1) else OneFile(k, size, n)
  {
    var s := OneFile(k, size, n);
    if n + 2 < limit {
      var s' := OneFile(k, size, n + 1);
      assert s.fat[n + 2] == 0;
      assert LowestFree(s.fat, 2, limit) == n + 2;
      assert s.files[0] + [n + 2] == s'.files[0];
      assert ExtendFat(k, s.fat, n + 1, n + 2) == s'.fat;
    } else {
      assert LowestFree(s.fat, 2, limit) == 0;
    }
  }

  /** Create a file, extend it n times, and go on with the given steps. */
  function GrowThen(n: nat, last: seq<Step>): seq<Step> {
    if n == 0 then last else [Extend(0)] + GrowThen(n - 1, last)
  }

  lemma {:induction false} GrowRuns(k: Kind, size: nat, limit: nat, m: nat, n: nat, last: seq<Step>)
    requires 0 < m && m + n + 2 <= limit <= size <= EofMarker(k)
    ensures Inv(k, OneFile(k, size, m)) && Inv(k, OneFile(k, size, m + n))
    ensures Run(k, limit, OneFile(k, size, m), GrowThen(n, last)) == Run(k, limit, OneFile(k, size, m + n), last)
    decreases n
  {
    hide Apply, Inv;
    OneFileInv(k, size, m);
    if n > 0 {
      OneFileGrows(k, size, limit, m);
      GrowRuns(k, size, limit, m + 1, n - 1, last);
      assert GrowThen(n, last)[1..] == GrowThen(n - 1, last);
    }
  }

  lemma EmptyInv(k: Kind, size: nat)
    requires 2 <= size <= EofMarker(k)
    ensures Inv(k, Empty(size))
  {
  }

  /** On an empty volume a file of n clusters is laid out in order, as far as the search for clusters looks. */
  lemma FileGrows(k: Kind, size: nat, limit: nat, n: nat, last: seq<Step>)
    requires 0 < n && n + 2 <= limit <= size <= EofMarker(k)
    ensures Inv(k, Empty(size)) && Inv(k, OneFile(k, size, n))
    ensures Run(k, limit, Empty(size), [Create] + GrowThen(n - 1, last)) == Run(k, limit, OneFile(k, size, n), last)
  {
    hide Inv, Apply, OneFile, Empty, GrowThen;
    EmptyInv(k, size);
    FirstFile(k, size, limit);
    GrowRuns(k, size, limit, 1, n - 1, last);
    var steps := [Create] + GrowThen(n - 1, last);
    assert steps[0] == Create && steps[1..] == GrowThen(n - 1, last);
  }

  lemma TruncateLoses(k: Kind, size: nat, limit: nat, n: nat)
    requires 0 < n && n + 2 <= size <= EofMarker(k) && limit <= size && Inv(k, OneFile(k, size, n))
    ensures Run(k, limit, OneFile(k, size, n), [Truncate(0)]).lost == n - Min(n, TRUNCATE_LIMIT + 1)
  {
    hide Clear, Reach, LowestFree;
    var s := OneFile(k, size, n);
    TruncateCount(k, s.fat, s.files[0]);
  }

  /** From an empty volume: a file is created, grown to n clusters and truncated.  Clusters are lost exactly when the
      file had more clusters than the truncation loop can reach. */
  lemma LongFileLoses(k: Kind, size: nat, limit: nat, n: nat)
    requires 0 < n && n + 2 <= limit <= size <= EofMarker(k)
    ensures Inv(k, Empty(size))
    ensures Run(k, limit, Empty(size), [Create] + GrowThen(n - 1, [Truncate(0)])).lost ==
              n - Min(n, 5001)
  {
    hide Inv, Run, OneFile, Empty, GrowThen;
    FileGrows(k, size, limit, n, [Truncate(0)]);
    TruncateLoses(k, size, limit, n);
  }

  /** From an empty volume: a file grows over all clusters that the search looks at.  The rest of the clusters are free,
      but no file can be created or extended any more. */
  lemma FullWithFreeClusters(k: Kind, size: nat, limit: nat, step: Step)
    requires 3 <= limit <= size <= EofMarker(k) && (step.Create? || step.Extend?)
    ensures Inv(k, Empty(size))
    ensures var s := Run(k, limit, Empty(size), [Create] + GrowThen(limit - 3, []));
            (forall c :: c in FreeSet(s.fat) <==> limit <= c < size) && Apply(k, limit, s, step) == s
  {
    hide Inv, Empty, GrowThen, Run, LowestFree;
    var s := OneFile(k, size, limit - 2);
    FileGrows(k, size, limit, limit - 2, []);
    EmptyRun(k, limit, s);
    SearchExact(s.fat, limit);
  }

  lemma EmptyRun(k: Kind, limit: nat, s: State)
    requires Inv(k, s) && limit <= |s.fat|
    ensures Run(k, limit, s, []) == s
  {
  }

  lemma FirstFile(k: Kind, size: nat, limit: nat)
    requires 3 <= limit <= size <= EofMarker(k) && Inv(k, Empty(size))
    ensures Apply(k, limit, Empty(size), Create) == OneFile(k, size, 1)
  {
    assert LowestFree(Empty(size).fat, 2, limit) == 2;
    assert CreateFat(k, Empty(size).fat, 2) == OneFile(k, size, 1).fat;
    assert OneFile(k, size, 1).files[0] == [2];
  }

  /** A chain leaves out the two reserved entries, and everything from the first unused cluster on. */
  lemma ChainLength(k: Kind, fat: seq<nat>, limit: nat, chain: seq<nat>)
    requires SoundTable(k, fat) && IsChain(k, fat, chain) && limit <= |fat| && UnusedFrom(fat, limit)
    ensures |chain| + 2 <= limit
  {
    hide NoDuplicates, UnusedFrom;
    ChainAcyclic(k, fat, chain);
    ChainBelow(k, fat, limit, chain);
    DistinctBetween(chain, limit);
  }

  lemma DistinctBetween(s: seq<nat>, limit: nat)
    requires NoDuplicates(s) && s != [] && forall i :: 0 <= i < |s| ==> 2 <= s[i] < limit
    ensures |s| + 2 <= limit
  {
    hide NoDuplicates;
    ElementsCount(s);
    assert 2 <= s[0] < limit;
    var clusters := ClustersBelow(limit);
    assert clusters == Elements(s) + (clusters - Elements(s));
  }

  ghost function ClustersBelow(n: nat): (s: set<nat>)
    requires 2 <= n
    ensures |s| == n - 2 && forall x: nat :: x in s <==> 2 <= x < n
  {
    if n == 2 then {} else ClustersBelow(n - 1) + {n - 1}
  }

  lemma SmallVolumeStep(k: Kind, limit: nat, used: nat, s: State, step: Step)
    requires Inv(k, s) && limit <= |s.fat| && used <= |s.fat| && used <= TRUNCATE_LIMIT + 3 && UnusedFrom(s.fat, used)
    ensures Apply(k, limit, s, step).lost == s.lost
  {
    hide Apply, Disjoint;
    StepLosesNothing(k, limit, s, step);
    if !step.Create? && step.f < |s.files| {
      ChainLength(k, s.fat, used, s.files[step.f]);
      ChainBelow(k, s.fat, used, s.files[step.f]);
    }
  }

  /** As long as only the first clusters are in use, and no more of them than the truncation loop can reach, no run
      loses one. */
  lemma {:induction false} RunLosesNothing(k: Kind, limit: nat, used: nat, s: State, steps: seq<Step>)
    requires Inv(k, s) && limit <= used <= |s.fat| && used <= 5003 && UnusedFrom(s.fat, used)
    ensures Run(k, limit, s, steps).lost == s.lost
    decreases |steps|
  {
    hide Apply, Inv, UnusedFrom;
    if steps != [] {
      StepKeepsInv(k, limit, s, steps[0]);
      SmallVolumeStep(k, limit, used, s, steps[0]);
      StepKeepsUnused(k, limit, used, s, steps[0]);
      RunLosesNothing(k, limit, used, Apply(k, limit, s, steps[0]), steps[1..]);
    }
  }

  ghost predicate NeverLoses(k: Kind, limit: nat, s: State)
    requires Inv(k, s) && limit <= |s.fat|
  {
    forall steps :: Run(k, limit, s, steps).lost == s.lost
  }

  /** The volumes on which no run loses a cluster, whatever files they hold at the start. */
  lemma VolumeLosesNothing(k: Kind, limit: nat, size: nat)
    requires limit <= size && 2 <= size <= EofMarker(k)
    ensures (forall s | Inv(k, s) && |s.fat| == size :: NeverLoses(k, limit, s)) <==> size <= 5003
  {
    hide Inv, Run, OneFile;
    if size <= TRUNCATE_LIMIT + 3 {
      forall s, steps | Inv(k, s) && |s.fat| == size ensures Run(k, limit, s, steps).lost == s.lost {
        RunLosesNothing(k, limit, size, s, steps);
      }
    } else {
      OneFileInv(k, size, TRUNCATE_LIMIT + 2);
      OneFileLoses(k, limit, size);
      assert !NeverLoses(k, limit, OneFile(k, size, TRUNCATE_LIMIT + 2));
    }
  }

  lemma OneFileLoses(k: Kind, limit: nat, size: nat)
    requires limit <= size && TRUNCATE_LIMIT + 4 <= size <= EofMarker(k) && Inv(k, OneFile(k, size, TRUNCATE_LIMIT + 2))
    ensures var s := OneFile(k, size, TRUNCATE_LIMIT + 2);
            |s.fat| == size && Run(k, limit, s, [Truncate(0)]).lost == s.lost + 1
  {
    hide Inv, Run;
    TruncateLoses(k, size, limit, TRUNCATE_LIMIT + 2);
  }

  /** The volumes on which no run that starts without files loses a cluster: there, the search limit counts. */
  lemma FreshVolumeLosesNothing(k: Kind, limit: nat, size: nat)
    requires limit <= size && 2 <= size <= EofMarker(k)
    ensures Inv(k, Empty(size)) && (NeverLoses(k, limit, Empty(size)) <==> limit <= 5003)
  {
    hide Inv, Run, OneFile;
    EmptyInv(k, size);
    if limit <= TRUNCATE_LIMIT + 3 {
      forall steps ensures Run(k, limit, Empty(size), steps).lost == 0 {
        RunLosesNothing(k, limit, limit, Empty(size), steps);
      }
    } else {
      LongFileLoses(k, size, limit, TRUNCATE_LIMIT + 2);
      assert !NeverLoses(k, limit, Empty(size));
    }
  }
}
