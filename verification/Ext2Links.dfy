/**
  The directory tree of src/ext2.c: every name leads to a live inode, a directory
  is named once (by its parent, to which its ".." leads back), and a file's link
  count is at least the number of its names. This is what makes it safe to free an
  inode when its last name goes.
 */
module Ext2Links {
  import opened Types
  import opened Ext2Dir
  import opened Ext2Map
  import opened Ext2Core

  type Table = map<nat, Inode>

  /** The names of inode `i`. */
  ghost function Refs(names: Names, i: nat): set<Key> {
    set k | k in names && names[k].target == i && Real(k.name)
  }

  /** A key lies in a live directory and leads to a live inode. */
  ghost predicate KeyOk(g: Geo, tbl: Table, names: Names, up: map<nat, Key>, k: Key)
    requires k in names
  {
    var t := names[k].target;
    && k.dir in tbl && tbl[k.dir].kind == Directory && t in tbl && names[k].kind == TypeByte(g, tbl[t].kind)
    && (Real(k.name) && tbl[t].kind == Directory ==> t in up && up[t] == k)
    && (k.name == DOT ==> t == k.dir)
    && (k.name == DOT_DOT ==> tbl[t].kind == Directory && (k.dir == t == ROOT || UpOk(names, up, k.dir, t)))
  }

  /** `up[d]` is the name of directory `d`, and it is in directory `p`. */
  ghost predicate UpOk(names: Names, up: map<nat, Key>, d: nat, p: nat) {
    d in up && up[d].dir == p && Real(up[d].name) && up[d] in names && names[up[d]].target == d
  }

  ghost predicate NodeOk(tbl: Table, names: Names, i: nat)
    requires i in tbl
  {
    && (tbl[i].kind == Regular ==> |Refs(names, i)| <= tbl[i].links)
    && (tbl[i].kind == Directory ==> Key(i, DOT) in names && Key(i, DOT_DOT) in names)
  }

  ghost predicate LinksOk(g: Geo, tbl: Table, names: Names, up: map<nat, Key>) {
    && ROOT in tbl && tbl[ROOT].kind == Directory && ROOT !in up
    && (forall k {:trigger KeyOk(g, tbl, names, up, k)} :: k in names ==> KeyOk(g, tbl, names, up, k))
    && (forall i {:trigger NodeOk(tbl, names, i)} :: i in tbl ==> NodeOk(tbl, names, i))
  }

  lemma LinksKept(g: Geo, tbl: Table, tbl': Table, names: Names, up: map<nat, Key>)
    requires LinksOk(g, tbl, names, up) && tbl'.Keys == tbl.Keys
    requires forall i {:trigger tbl'[i]} :: i in tbl ==>
               tbl'[i].kind == tbl[i].kind && (tbl[i].kind == Regular ==> tbl'[i].links == tbl[i].links)
    ensures LinksOk(g, tbl', names, up)
  {
    forall k | k in names ensures KeyOk(g, tbl', names, up, k) {
      assert KeyOk(g, tbl, names, up, k);
    }
    forall i | i in tbl' ensures NodeOk(tbl', names, i) {
      assert NodeOk(tbl, names, i);
    }
  }

  lemma NoRefs(g: Geo, tbl: Table, names: Names, up: map<nat, Key>, i: nat)
    requires LinksOk(g, tbl, names, up) && i !in tbl
    ensures Refs(names, i) == {}
  {
    forall k | k in names ensures names[k].target != i {
      assert KeyOk(g, tbl, names, up, k);
    }
  }

  /** A new file under a name that was free. */
  lemma FileLinked(g: Geo, tbl: Table, tbl': Table, names: Names, names': Names, up: map<nat, Key>, k: Key, i: nat)
    requires LinksOk(g, tbl, names, up) && i !in tbl && k !in names
    requires k.dir in tbl && tbl[k.dir].kind == Directory
    requires k in names' && names'[k].target == i && names'[k].kind == TypeByte(g, Regular)
    requires names' == names[k := names'[k]]
    requires tbl'.Keys == tbl.Keys + {i} && tbl'[i].kind == Regular && tbl'[i].links == 1
    requires forall j {:trigger tbl'[j]} :: j in tbl ==>
               tbl'[j].kind == tbl[j].kind && (tbl[j].kind == Regular ==> tbl'[j].links == tbl[j].links)
    ensures LinksOk(g, tbl', names', up)
  {
    assert NodeOk(tbl, names, k.dir);
    assert Real(k.name);
    NoRefs(g, tbl, names, up, i);
    forall l | l in names' ensures KeyOk(g, tbl', names', up, l) {
      if l != k {
        assert KeyOk(g, tbl, names, up, l);
      }
    }
    forall j | j in tbl' ensures NodeOk(tbl', names', j) {
      if j == i {
        assert Refs(names', i) == {k};
      } else {
        assert NodeOk(tbl, names, j);
        assert Refs(names', j) == Refs(names, j);
      }
    }
  }

  /** A new directory, with its "." and "..", under a name that was free. */
  lemma DirLinked(g: Geo, tbl: Table, tbl': Table, names: Names, names': Names, up: map<nat, Key>, k: Key, i: nat)
    requires LinksOk(g, tbl, names, up) && i !in tbl && k !in names
    requires k.dir in tbl && tbl[k.dir].kind == Directory
    requires k in names' && names'[k].target == i && names'[k].kind == TypeByte(g, Directory)
    requires Key(i, DOT) in names' && names'[Key(i, DOT)].target == i
    requires names'[Key(i, DOT)].kind == TypeByte(g, Directory)
    requires Key(i, DOT_DOT) in names' && names'[Key(i, DOT_DOT)].target == k.dir
    requires names'[Key(i, DOT_DOT)].kind == TypeByte(g, Directory)
    requires names' ==
             names[k := names'[k]][Key(i, DOT) := names'[Key(i, DOT)]][Key(i, DOT_DOT) := names'[Key(i, DOT_DOT)]]
    requires tbl'.Keys == tbl.Keys + {i} && tbl'[i].kind == Directory
    requires forall j {:trigger tbl'[j]} :: j in tbl ==>
               tbl'[j].kind == tbl[j].kind && (tbl[j].kind == Regular ==> tbl'[j].links == tbl[j].links)
    ensures LinksOk(g, tbl', names', up[i := k])
  {
    assert NodeOk(tbl, names, k.dir);
    assert Real(k.name);
    forall l | l in names' ensures KeyOk(g, tbl', names', up[i := k], l) {
      if l in names {
        assert KeyOk(g, tbl, names, up, l);
      }
    }
    forall j | j in tbl' ensures NodeOk(tbl', names', j) {
      assert j != i ==> NodeOk(tbl, names, j);
      DirLinkedNode(tbl, tbl', names, names', k, i, j);
    }
  }

  lemma DirLinkedNode(tbl: Table, tbl': Table, names: Names, names': Names, k: Key, i: nat, j: nat)
    requires j in tbl' && (j == i || (j in tbl && NodeOk(tbl, names, j))) && i in tbl' && tbl'[i].kind == Directory
    requires k in names' && names'[k].target == i && Key(i, DOT) in names' && Key(i, DOT_DOT) in names'
    requires names' ==
             names[k := names'[k]][Key(i, DOT) := names'[Key(i, DOT)]][Key(i, DOT_DOT) := names'[Key(i, DOT_DOT)]]
    requires k !in names
    requires j != i ==> tbl'[j].kind == tbl[j].kind && (tbl[j].kind == Regular ==> tbl'[j].links == tbl[j].links)
    ensures NodeOk(tbl', names', j)
  {
    if j != i {
      assert Refs(names', j) == Refs(names, j);
    }
  }

  /** One name of a file goes; the file stays while it has links left. */
  lemma FileUnlinked(g: Geo, tbl: Table, tbl': Table, names: Names, up: map<nat, Key>, k: Key, i: nat)
    requires LinksOk(g, tbl, names, up) && k in names && names[k].target == i && i in tbl && tbl[i].kind == Regular
    requires if i in tbl' then tbl' == tbl[i := tbl'[i]] && tbl'[i].kind == Regular && tbl'[i].links == tbl[i].links - 1
             else tbl' == tbl - {i} && tbl[i].links <= 1
    ensures tbl[i].links >= 1 && Real(k.name)
    ensures LinksOk(g, tbl', names - {k}, up)
  {
    var names' := names - {k};
    assert KeyOk(g, tbl, names, up, k);
    assert k in Refs(names, i);
    assert NodeOk(tbl, names, i);
    assert Refs(names', i) == Refs(names, i) - {k};
    assert |Refs(names', i)| == |Refs(names, i)| - 1;
    if i !in tbl' {
      assert Refs(names', i) == {};
    }
    forall l | l in names' ensures KeyOk(g, tbl', names', up, l) {
      assert KeyOk(g, tbl, names, up, l);
      assert names[l].target == i ==> l in Refs(names', i);
    }
    forall j | j in tbl' ensures NodeOk(tbl', names', j) {
      assert NodeOk(tbl, names, j);
      if j != i {
        assert Refs(names', j) == Refs(names, j);
      }
    }
  }

  /** Directory `i` holds nothing but "." and "..". */
  ghost predicate EmptyDir(names: Names, i: nat) {
    forall k: Key :: k in names && k.dir == i ==> !Real(k.name)
  }

  ghost function WithoutDir(names: Names, k: Key, i: nat): Names {
    map l | l in names && l != k && l.dir != i :: names[l]
  }

  /** An empty directory goes with its one name: no other name led to it. */
  lemma DirUnlinked(g: Geo, tbl: Table, tbl': Table, names: Names, up: map<nat, Key>, k: Key, i: nat)
    requires LinksOk(g, tbl, names, up) && k in names && names[k].target == i && Real(k.name)
    requires i in tbl && tbl[i].kind == Directory && EmptyDir(names, i)
    requires tbl'.Keys == tbl.Keys - {i}
    requires forall j {:trigger tbl'[j]} :: j in tbl' ==>
               tbl'[j].kind == tbl[j].kind && (tbl[j].kind == Regular ==> tbl'[j].links == tbl[j].links)
    ensures i != ROOT && k.dir != i
    ensures LinksOk(g, tbl', WithoutDir(names, k, i), up - {i})
  {
    var names' := WithoutDir(names, k, i);
    var up' := up - {i};
    assert KeyOk(g, tbl, names, up, k);
    forall l | l in names' ensures KeyOk(g, tbl', names', up', l) {
      assert KeyOk(g, tbl, names, up, l);
    }
    forall j | j in tbl' ensures NodeOk(tbl', names', j) {
      assert NodeOk(tbl, names, j);
      if tbl[j].kind == Regular {
        forall l | l in Refs(names, j) ensures l in Refs(names', j) {
        }
        assert Refs(names', j) == Refs(names, j);
      }
    }
  }
}
