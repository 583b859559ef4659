/**
  Paths in src/ext2.c: components separated by any number of slashes, followed
  from the root through the name map; and the split of a path into its parent
  directory and its last component.
 */
module Ext2Path {
  import opened Types
  import opened Ext2Dir
  import opened Ext2Map
  import opened Ext2Core

  const SLASH: Byte := '/' as int

  /** Length of the longest prefix without a slash. */
  function NameEnd(p: seq<Byte>): (n: nat)
    ensures n <= |p| && (forall i :: 0 <= i < n ==> p[i] != SLASH) && (n < |p| ==> p[n] == SLASH)
  {
    if p == [] || p[0] == SLASH then 0 else 1 + NameEnd(p[1..])
  }

  function Components(p: seq<Byte>): seq<Name>
    decreases |p|
  {
    if p == [] then []
    else if p[0] == SLASH then Components(p[1..])
    else
      var n := NameEnd(p);
      [p[..n]] + Components(p[n..])
  }

  predicate NoSlash(p: seq<Byte>) {
    forall i :: 0 <= i < |p| ==> p[i] != SLASH
  }

  predicate AllSlashes(p: seq<Byte>) {
    forall i :: 0 <= i < |p| ==> p[i] == SLASH
  }

  /** A prefix after which a component may start. */
  predicate Prefix(p: seq<Byte>) {
    p == [] || p[|p| - 1] == SLASH
  }

  lemma NameEndIs(p: seq<Byte>, n: nat)
    requires n <= |p| && NoSlash(p[..n]) && (n < |p| ==> p[n] == SLASH)
    ensures NameEnd(p) == n
  {
    assert forall i :: 0 <= i < n ==> p[i] == p[..n][i];
  }

  lemma FirstComponent(path: seq<Byte>, p: nat, n: nat)
    requires p + n <= |path| && n == NameEnd(path[p..]) && n > 0
    ensures Components(path[p..]) == [path[p..p + n]] + Components(path[p + n..])
  {
    assert path[p..][..n] == path[p..p + n] && path[p..][n..] == path[p + n..];
  }

  lemma {:induction false} SlashesOnly(p: seq<Byte>)
    requires AllSlashes(p)
    ensures Components(p) == []
  {
    if p != [] {
      SlashesOnly(p[1..]);
    }
  }

  /** The last component of a path, whatever slashes follow it. */
  lemma {:induction false} LastComponent(dir: seq<Byte>, base: Name, tail: seq<Byte>)
    requires Prefix(dir) && NoSlash(base) && base != [] && AllSlashes(tail)
    ensures Components(dir + base + tail) == Components(dir) + [base]
    decreases |dir|
  {
    var p := dir + base + tail;
    if dir == [] {
      assert p == base + tail;
      NameEndIs(p, |base|);
      assert p[..|base|] == base && p[|base|..] == tail;
      SlashesOnly(tail);
    } else if dir[0] == SLASH {
      assert p[1..] == dir[1..] + base + tail;
      LastComponent(dir[1..], base, tail);
    } else {
      var n := NameEnd(dir);
      assert n < |dir|;
      assert p[..n] == dir[..n] && p[n] == dir[n];
      NameEndIs(p, n);
      assert p[n..] == dir[n..] + base + tail;
      LastComponent(dir[n..], base, tail);
    }
  }

  /** Where the components lead from inode `cur`; 0 when one is missing or a file is in the way. */
  ghost function Walk(tbl: map<nat, Inode>, names: Names, cur: nat, comps: seq<Name>): nat
    decreases |comps|
  {
    if comps == [] then cur
    else if cur in tbl && tbl[cur].kind == Directory && Key(cur, comps[0]) in names then
      Walk(tbl, names, names[Key(cur, comps[0])].target, comps[1..])
    else 0
  }

  lemma {:induction false} WalkLast(tbl: map<nat, Inode>, names: Names, cur: nat, comps: seq<Name>, base: Name)
    requires forall k :: k in names ==> names[k].target != 0
    requires cur != 0 && 0 !in tbl
    ensures var d := Walk(tbl, names, cur, comps);
            Walk(tbl, names, cur, comps + [base]) ==
            if d in tbl && tbl[d].kind == Directory && Key(d, base) in names then names[Key(d, base)].target else 0
    decreases |comps|
  {
    if comps != [] {
      assert (comps + [base])[1..] == comps[1..] + [base];
      if cur in tbl && tbl[cur].kind == Directory && Key(cur, comps[0]) in names {
        WalkLast(tbl, names, names[Key(cur, comps[0])].target, comps[1..], base);
      }
    } else {
      assert (comps + [base])[1..] == [];
    }
  }

  /** More names, and directories that stay directories: what was found is still found. */
  lemma {:induction false} WalkKept(tbl: map<nat, Inode>, tbl': map<nat, Inode>, names: Names, names': Names, cur: nat,
                                    comps: seq<Name>)
    requires forall k {:trigger names[k]} :: k in names ==> k in names' && names'[k].target == names[k].target
    requires forall i {:trigger tbl[i]} :: i in tbl ==> i in tbl' && tbl'[i].kind == tbl[i].kind
    requires Walk(tbl, names, cur, comps) != 0
    ensures Walk(tbl', names', cur, comps) == Walk(tbl, names, cur, comps)
    decreases |comps|
  {
    if comps != [] {
      WalkKept(tbl, tbl', names, names', names[Key(cur, comps[0])].target, comps[1..]);
    }
  }

  /** The length of `path` without the slashes at its end. */
  function Trimmed(path: seq<Byte>): (len: nat)
    ensures len <= |path|
  {
    if path != [] && path[|path| - 1] == SLASH then Trimmed(path[..|path| - 1]) else |path|
  }

  /** Where the component that ends at `n` starts. */
  function StartOf(path: seq<Byte>, n: nat): (k: nat)
    requires n <= |path|
    ensures k <= n
  {
    if n > 0 && path[n - 1] != SLASH then StartOf(path, n - 1) else n
  }

  /** What resolve_parent's buffers hold: a last component of 255 bytes, and 255 bytes before it. */
  predicate ShortEnough(path: seq<Byte>) {
    Trimmed(path) - StartOf(path, Trimmed(path)) <= 255 && StartOf(path, Trimmed(path)) < 256
  }

  method TrimEnd(path: seq<Byte>) returns (len: nat)
    ensures len == Trimmed(path) && AllSlashes(path[len..]) && (len > 0 ==> path[len - 1] != SLASH)
  {
    len := |path|;
    assert path[..len] == path;
    while len > 0 && path[len - 1] == SLASH
      invariant len <= |path| && AllSlashes(path[len..]) && Trimmed(path) == Trimmed(path[..len])
    {
      assert path[..len][..len - 1] == path[..len - 1];
      len := len - 1;
    }
  }

  method FindStart(path: seq<Byte>, len: nat) returns (slash: nat)
    requires 0 < len <= |path| && path[len - 1] != SLASH
    ensures slash == StartOf(path, len) < len && NoSlash(path[slash..len]) && Prefix(path[..slash])
  {
    slash := len;
    while slash > 0 && path[slash - 1] != SLASH
      invariant slash <= len && NoSlash(path[slash..len]) && StartOf(path, slash) == StartOf(path, len)
      invariant slash == len ==> path[slash - 1] != SLASH
    {
      slash := slash - 1;
    }
  }

  /** resolve_parent's split: `path[slash..len]` is the last component, and only slashes follow. */
  method SplitPath(path: seq<Byte>) returns (ok: bool, slash: nat, len: nat)
    ensures slash <= len <= |path|
    ensures ok ==> slash < len && NoSlash(path[slash..len]) && Prefix(path[..slash]) && AllSlashes(path[len..])
    ensures ok ==> len - slash <= 255
    ensures ok <==> Components(path) != [] && ShortEnough(path)
  {
    len := TrimEnd(path);
    if len == 0 {
      assert path[0..] == path;
      SlashesOnly(path);
      return false, 0, 0;
    }
    slash := FindStart(path, len);
    assert path == path[..slash] + path[slash..len] + path[len..];
    LastComponent(path[..slash], path[slash..len], path[len..]);
    ok := len - slash <= 255 && slash < 256;
  }
}
