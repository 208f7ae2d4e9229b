/** The mount table: mounting, unmounting, and the resolution of paths to the longest matching mount point. */
module Mounts {
  import opened Common

  const MAX_MOUNTS: nat := 8
  const MAX_PATH: nat := 256
  const EINVAL: int := 22
  const ENOENT: int := 2

  datatype Entry = Entry(point: string, partition: nat)

  // ----- Mount points -----

  /** The length without trailing slashes; the root keeps its slash. */
  function StrippedLength(s: string, len: nat): (n: nat)
    requires 0 < len <= |s|
    ensures 0 < n <= len && (n == 1 || s[n - 1] != '/') && forall i :: n <= i < len ==> s[i] == '/'
  {
    if len > 1 && s[len - 1] == '/' then StrippedLength(s, len - 1) else len
  }

  /** A mount location in normal form, or nothing if it is not absolute. */
  function Normalized(location: string): (r: Option<string>) {
    if location == [] || location[0] != '/' then None
    else
      var n := StrippedLength(location, |location|);
      Some(location[..if n >= MAX_PATH then MAX_PATH - 1 else n])
  }

  predicate IsPoint(p: string) {
    0 < |p| < MAX_PATH && p[0] == '/'
  }

  /** No trailing slash, except in the root. */
  predicate Clean(p: string) {
    IsPoint(p) && (p == "/" || p[|p| - 1] != '/')
  }

  /** A location yields a clean mount point exactly if cutting it at 255 characters does not leave a slash at the
      end. */
  lemma NormalizedClean(location: string)
    requires location != [] && location[0] == '/'
    ensures Normalized(location).Some? && IsPoint(Normalized(location).value)
    ensures Clean(Normalized(location).value) <==>
            !(StrippedLength(location, |location|) >= 256 && location[254] == '/')
  {
    var n := StrippedLength(location, |location|);
    var p := Normalized(location).value;
    if n < MAX_PATH {
      assert p[|p| - 1] == location[n - 1];
      if n == 1 {
        assert p == "/";
      }
    } else {
      assert p[|p| - 1] == location[MAX_PATH - 2];
      assert |p| != |"/"|;
    }
  }

  // ----- Matching -----

  /** The mount point is a prefix of the path that ends at a component boundary. */
  predicate Covers(point: string, path: string)
    requires 0 < |point|
  {
    && point <= path
    && (|path| == |point| || path[|point|] == '/' || point[|point| - 1] == '/')
  }

  /** A mount point covers the paths that are equal to it or continue it with a slash; one that ends in a slash, like
      the root, covers all paths that it begins. */
  lemma CoversExact(point: string, path: string)
    requires 0 < |point|
    ensures Covers(point, path) <==>
            path == point || point + "/" <= path || (point[|point| - 1] == '/' && point <= path)
  {
    if Covers(point, path) && path != point && path[|point|] == '/' {
      assert point + "/" == path[..|point| + 1];
    }
    if point + "/" <= path {
      assert path[..|point|] == (point + "/")[..|point|] && path[|point|] == (point + "/")[|point|];
    }
  }

  /** A mount point does not capture a sibling whose name it begins: no path below the point continues its last name. */
  lemma NoSibling(point: string, name: string)
    requires Clean(point) && point != "/" && name != [] && name[0] != '/'
    ensures !Covers(point, point + name) && Covers(point, point + "/" + name) && Covers("/", point + name)
  {
    assert (point + name)[|point|] == name[0];
    assert (point + "/" + name)[..|point|] == point;
  }

  predicate Valid(table: seq<Entry>) {
    && |table| <= MAX_MOUNTS
    && (forall i :: 0 <= i < |table| ==> IsPoint(table[i].point))
    && (forall i, j :: 0 <= i < j < |table| ==> table[i].point != table[j].point)
  }

  /** Entry e is the longest one that covers the path. */
  ghost predicate IsBest(table: seq<Entry>, path: string, e: Entry) {
    && e in table && 0 < |e.point| && Covers(e.point, path)
    && forall f :: f in table && 0 < |f.point| && Covers(f.point, path) ==> |f.point| <= |e.point|
  }

  ghost predicate NoneCovers(table: seq<Entry>, path: string) {
    forall f :: f in table && 0 < |f.point| ==> !Covers(f.point, path)
  }

  /** Two mount points that cover a path and are equally long are equal. */
  lemma SameLengthSamePoint(p: string, q: string, path: string)
    requires 0 < |p| == |q| && Covers(p, path) && Covers(q, path)
    ensures p == q
  {
    assert p == path[..|p|] && q == path[..|q|];
  }

  lemma BestUnique(table: seq<Entry>, path: string, e: Entry, f: Entry)
    requires Valid(table) && IsBest(table, path, e) && IsBest(table, path, f)
    ensures e == f
  {
    SameLengthSamePoint(e.point, f.point, path);
    var i :| 0 <= i < |table| && table[i] == e;
    var j :| 0 <= j < |table| && table[j] == f;
    assert i == j;
  }

  /** The result of matching, as a function of the set of entries. */
  ghost predicate Resolves(table: seq<Entry>, path: string, best: Option<Entry>) {
    match best
    case None => NoneCovers(table, path)
    case Some(e) => IsBest(table, path, e)
  }

  /** The order of the entries does not matter. */
  lemma OrderIndependent(t1: seq<Entry>, t2: seq<Entry>, path: string, b1: Option<Entry>, b2: Option<Entry>)
    requires Valid(t1) && Valid(t2) && (forall e :: e in t1 <==> e in t2)
    requires Resolves(t1, path, b1) && Resolves(t2, path, b2)
    ensures b1 == b2
  {
    match b1
    case None =>
    case Some(e) =>
      if b2.Some? {
        BestUnique(t1, path, e, b2.value);
      }
  }

  /** Removing an entry changes the resolution of exactly the paths for which it was the best match. */
  lemma RemovalLocal(t1: seq<Entry>, t2: seq<Entry>, gone: Entry, path: string, b1: Option<Entry>, b2: Option<Entry>)
    requires Valid(t1) && Valid(t2) && gone in t1 && (forall e :: e in t2 <==> e in t1 && e != gone)
    requires Resolves(t1, path, b1) && Resolves(t2, path, b2)
    ensures b1 != b2 <==> b1 == Some(gone)
  {
    if b1 != Some(gone) {
      match b1
      case None =>
      case Some(e) =>
        assert IsBest(t2, path, e);
        if b2.Some? {
          BestUnique(t2, path, e, b2.value);
        }
    }
  }

  // ----- Relative paths -----

  /** The path below the mount point; always absolute. */
  function Relative(tail: string): (r: Option<string>)
    ensures r.Some? ==> IsPoint(r.value)
    ensures r.None? <==> tail != [] && tail[0] != '/' && |tail| + 1 >= MAX_PATH
  {
    if tail == [] then Some("/")
    else if tail[0] != '/' then
      if |tail| + 1 >= MAX_PATH then None else Some("/" + tail)
    else Some(if |tail| < MAX_PATH then tail else tail[..MAX_PATH - 1])
  }

  /** Mount point and relative path together are the path, up to one slash, if and only if the part below the mount
      point fits; a longer one is cut without notice, or refused below the root. */
  lemma RelativeExact(point: string, path: string)
    requires Clean(point) && Covers(point, path) && path != point
    ensures var r, fits := Relative(path[|point|..]), |path| - |point| < MAX_PATH;
            && (point != "/" ==> r.Some? && (point + r.value == path <==> fits))
            && (point == "/" && path[1] == '/' ==> r.Some? && ("/" + r.value == path <==> fits))
            && (point == "/" && path[1] != '/' ==>
                  (r == Some(path) <==> |path| < MAX_PATH) && (r == None <==> |path| >= MAX_PATH))
  {
    var tail := path[|point|..];
    assert point + tail == path;
    if tail[0] == '/' && |tail| >= MAX_PATH {
      assert |point + tail[..MAX_PATH - 1]| != |path|;
    }
  }

  // ----- The table -----

  /** What mounting needs to know of a volume. */
  datatype Filesystem = Missing | Devfs | Supported | Unsupported

  datatype Volume = Volume(partition: nat, hasDisk: bool, fs: Filesystem)

  /** Whether a volume can be mounted at all. */
  predicate Mountable(v: Volume) {
    match v.fs
    case Missing => false
    case Devfs => true
    case Supported => v.hasDisk
    case Unsupported => false
  }

  predicate InUse(table: seq<Entry>, point: string) {
    exists i :: 0 <= i < |table| && table[i].point == point
  }

  /** The index of the first entry of a partition; |table| if there is none. */
  function FirstOf(table: seq<Entry>, partition: nat, k: nat): (i: nat)
    requires k <= |table|
    ensures k <= i <= |table| && (i < |table| ==> table[i].partition == partition)
    ensures forall j :: k <= j < i ==> table[j].partition != partition
    decreases |table| - k
  {
    if k == |table| || table[k].partition == partition then k else FirstOf(table, partition, k + 1)
  }

  /** The last entry moves into the gap. */
  function Compacted(table: seq<Entry>, i: nat): (r: seq<Entry>)
    requires i < |table|
    ensures |r| == |table| - 1
  {
    table[i := table[|table| - 1]][..|table| - 1]
  }

  /** Compacting removes one entry and keeps all others, in some order. */
  lemma CompactedEntries(table: seq<Entry>, i: nat)
    requires Valid(table) && i < |table|
    ensures Valid(Compacted(table, i))
    ensures forall e :: e in Compacted(table, i) <==> e in table && e != table[i]
  {
    var r := Compacted(table, i);
    var last := |table| - 1;
    forall j | 0 <= j < |r| ensures r[j] == if j == i then table[last] else table[j] {
    }
    forall e | e in table && e != table[i] ensures e in r {
      var k :| 0 <= k < |table| && table[k] == e;
      assert r[if k == last then i else k] == e;
    }
    forall e | e in r ensures e in table && e != table[i] {
      var j :| 0 <= j < |r| && r[j] == e;
      var k := if j == i then last else j;
      assert table[k] == e && k != i;
      if k < i {
        assert table[k].point != table[i].point;
      } else {
        assert table[i].point != table[k].point;
      }
    }
  }

  /** The two tables resolve exactly those paths differently whose best match in t1 was the given entry. */
  ghost predicate OnlyBestMatchLost(t1: seq<Entry>, t2: seq<Entry>, gone: Entry) {
    forall path, b1, b2 :: Resolves(t1, path, b1) && Resolves(t2, path, b2) ==> (b1 != b2 <==> b1 == Some(gone))
  }

  lemma RemovalLocalAll(table: seq<Entry>, i: nat)
    requires Valid(table) && i < |table|
    ensures OnlyBestMatchLost(table, Compacted(table, i), table[i])
  {
    CompactedEntries(table, i);
    hide Resolves, Compacted, Valid;
    forall path, b1, b2 | Resolves(table, path, b1) && Resolves(Compacted(table, i), path, b2)
      ensures b1 != b2 <==> b1 == Some(table[i])
    {
      RemovalLocal(table, Compacted(table, i), table[i], path, b1, b2);
    }
  }

  lemma ResolvesStep(table: seq<Entry>, path: string, n: nat, best: Option<Entry>)
    requires Valid(table) && n < |table| && Resolves(table[..n], path, best)
    ensures var e := table[n];
            var longer := Covers(e.point, path) && (best == None || |e.point| > |best.value.point|);
            Resolves(table[..n + 1], path, if longer then Some(e) else best)
  {
    assert table[..n + 1] == table[..n] + [table[n]];
    var e := table[n];
    assert forall f :: f in table[..n + 1] <==> f in table[..n] || f == e;
  }

  /** The best match is the longest mount point that the path equals or continues. */
  lemma Longest(table: seq<Entry>, path: string, best: Option<Entry>)
    requires Valid(table) && Resolves(table, path, best)
    ensures best.Some? ==>
      var p := best.value.point; 0 < |p| && (path == p || p + "/" <= path || (p[|p| - 1] == '/' && p <= path))
    ensures forall i :: 0 <= i < |table| ==>
      var p := table[i].point;
      (path == p || p + "/" <= path || (p[|p| - 1] == '/' && p <= path)) ==> best.Some? && |p| <= |best.value.point|
  {
    hide Covers;
    if best.Some? {
      CoversExact(best.value.point, path);
    }
    forall i | 0 <= i < |table|
      ensures var p := table[i].point;
              (path == p || p + "/" <= path || (p[|p| - 1] == '/' && p <= path)) ==>
                best.Some? && |p| <= |best.value.point|
    {
      CoversExact(table[i].point, path);
      assert table[i] in table;
    }
  }

  class MountTable {
    const mounts: array<Entry>
    var count: nat

    ghost predicate Ok()
      reads this, mounts
    {
      mounts.Length == MAX_MOUNTS && count <= MAX_MOUNTS && Valid(mounts[..count])
    }

    constructor ()
      ensures Ok() && mounts[..count] == [] && fresh(mounts)
    {
      mounts := new Entry[MAX_MOUNTS](_ => Entry("", 0));
      count := 0;
    }

    static method Normalize(location: string) returns (r: Option<string>)
      ensures r == Normalized(location)
    {
      if location == [] || location[0] != '/' {
        return None;
      }
      var len := |location|;
      while len > 1 && location[len - 1] == '/'
        invariant 0 < len <= |location| && StrippedLength(location, len) == StrippedLength(location, |location|)
      {
        len := len - 1;
      }
      if len >= MAX_PATH {
        len := MAX_PATH - 1;
      }
      return Some(location[..len]);
    }

    /** The entry whose mount point is the longest one that covers the path, and the length of that mount point. */
    method Match(path: string) returns (best: Option<Entry>, length: nat)
      requires Ok()
      ensures Resolves(mounts[..count], path, best)
      ensures forall other :: Resolves(mounts[..count], path, other) ==> other == best
      ensures length == if best.Some? then |best.value.point| else 0
      ensures best.Some? ==>
        var p := best.value.point; path == p || p + "/" <= path || (p[|p| - 1] == '/' && p <= path)
      ensures forall i :: 0 <= i < count ==>
        var p := mounts[i].point;
        (path == p || p + "/" <= path || (p[|p| - 1] == '/' && p <= path)) ==> |p| <= length
    {
      ghost var table := mounts[..count];
      best, length := None, 0;
      for i := 0 to count
        invariant Resolves(table[..i], path, best)
        invariant length == if best.Some? then |best.value.point| else 0
      {
        ResolvesStep(table, path, i, best);
        var mount := mounts[i].point;
        assert mounts[i] == table[i];
        if mount <= path && (|path| == |mount| || path[|mount|] == '/' || mount[|mount| - 1] == '/') {
          if |mount| > length {
            best, length := Some(mounts[i]), |mount|;
          }
        }
      }
      assert table[..count] == table;
      Longest(table, path, best);
      forall other | Resolves(table, path, other) ensures other == best {
        OrderIndependent(table, table, path, other, best);
      }
    }

    /** Splits a path into the partition that holds it and the path there; the empty path stands for the root. */
    method Resolve(path: string) returns (code: int, partition: nat, relative: string)
      requires Ok()
      ensures code == 0 || code == -ENOENT || code == -EINVAL
      ensures var full := if path == [] then "/" else path;
              && (code == -ENOENT <==> NoneCovers(mounts[..count], full))
              && (code == 0 ==> exists e :: IsBest(mounts[..count], full, e) && partition == e.partition
                                            && Relative(full[|e.point|..]) == Some(relative))
              && (code == -EINVAL ==>
                    exists e :: IsBest(mounts[..count], full, e) && Relative(full[|e.point|..]) == None)
      ensures code == 0 ==> IsPoint(relative)
    {
      partition, relative := 0, "";
      var full := if path == [] then "/" else path;
      var best, length := Match(full);
      if best == None {
        return -ENOENT, 0, "";
      }
      var e := best.value;
      assert IsBest(mounts[..count], full, e);
      var tail := full[length..];
      if tail == [] {
        relative := "/";
      } else if tail[0] != '/' {
        if |tail| + 1 >= MAX_PATH {
          return -EINVAL, 0, "";
        }
        relative := "/" + tail;
      } else {
        relative := if |tail| < MAX_PATH then tail else tail[..MAX_PATH - 1];
      }
      return 0, e.partition, relative;
    }

    /** Adds an entry at the end of the table; no mount point is used twice. */
    method Mount(v: Volume, location: string) returns (code: int)
      requires Ok()
      modifies this`count, mounts
      ensures Ok()
      ensures var table := old(mounts[..count]);
              var point := Normalized(location);
              if Mountable(v) && |table| < MAX_MOUNTS && point.Some? && !InUse(table, point.value) then
                code == 0 && mounts[..count] == table + [Entry(point.value, v.partition)]
              else code == -1 && mounts[..count] == table
    {
      if !v.hasDisk && v.fs != Devfs {
        return -1;
      }
      if v.fs == Missing || count >= MAX_MOUNTS {
        return -1;
      }
      var point := Normalize(location);
      if point == None {
        return -1;
      }
      NormalizedClean(location);
      hide Normalized, StrippedLength;
      ghost var table := mounts[..count];
      for i := 0 to count
        invariant forall j :: 0 <= j < i ==> table[j].point != point.value
      {
        if mounts[i].point == point.value {
          assert table[i].point == point.value;
          return -1;
        }
      }
      if v.fs == Unsupported {
        return -1;
      }
      mounts[count] := Entry(point.value, v.partition);
      count := count + 1;
      assert mounts[..count] == table + [Entry(point.value, v.partition)];
      return 0;
    }

    /** Removes the first entry of the volume. */
    method Umount(v: Volume) returns (code: int)
      requires Ok()
      modifies this`count, mounts
      ensures Ok()
      ensures var table := old(mounts[..count]);
              var i := FirstOf(table, v.partition, 0);
              if v.fs != Missing && i < |table| then
                code == 0 && mounts[..count] == Compacted(table, i) &&
                  OnlyBestMatchLost(table, mounts[..count], table[i])
              else code == -1 && mounts[..count] == table
    {
      if v.fs == Missing {
        return -1;
      }
      ghost var table := mounts[..count];
      for i := 0 to count
        invariant FirstOf(table, v.partition, i) == FirstOf(table, v.partition, 0)
      {
        assert mounts[i] == table[i];
        if mounts[i].partition == v.partition {
          CompactedEntries(table, i);
          RemovalLocalAll(table, i);
          mounts[i] := mounts[count - 1];
          count := count - 1;
          assert mounts[..count] == Compacted(table, i);
          return 0;
        }
      }
      return -1;
    }
  }
}
