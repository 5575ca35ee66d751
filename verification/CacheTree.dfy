/** The part of the file system that cache retirement touches: names, inodes and hard links.
    A tree maps each name below the target to an inode; an inode may also be linked from outside. */
module CacheTree {
  import Lists

  /** A path below the target, as its parts. */
  type Name = seq<string>

  /** Bytes stand for their SHA-256 digest: the digest is taken to be injective. */
  type Content = string

  datatype FileId = FileId(device: nat, inode: nat)

  datatype FileType = Regular | Symlink | Special

  datatype Inode = Inode(ftype: FileType, content: Content, mtimeNs: nat, mode: nat, nlink: nat)

  datatype Tree = Tree(names: map<Name, FileId>, inodes: map<FileId, Inode>)

  /** What one lstat reports. */
  datatype Row = Row(id: FileId, bytes: nat, mtimeNs: nat, mode: nat, nlink: nat, blocks: nat, ftype: FileType)

  /** Block allocation is measured, and may drift between two measurements of the same file. */
  type Allocation = FileId -> nat

  ghost function Links(t: Tree, id: FileId): set<Name> {
    set n | n in t.names && t.names[n] == id
  }

  ghost predicate WellFormed(t: Tree) {
    && (forall n :: n in t.names ==> t.names[n] in t.inodes)
    && (forall id :: id in t.inodes ==> 0 < t.inodes[id].nlink && |Links(t, id)| <= t.inodes[id].nlink)
  }

  function Metadata(t: Tree, n: Name, alloc: Allocation): Row
    requires n in t.names && t.names[n] in t.inodes
  {
    var id := t.names[n];
    var node := t.inodes[id];
    Row(id, |node.content|, node.mtimeNs, node.mode, node.nlink, alloc(id), node.ftype)
  }

  /** The inventory of a tree. Directories are not part of this model. */
  function Inventory(t: Tree, alloc: Allocation): map<Name, Row>
    requires forall n :: n in t.names ==> t.names[n] in t.inodes
  {
    map n | n in t.names :: Metadata(t, n, alloc)
  }

  function Contents(t: Tree): map<Name, Content>
    requires forall n :: n in t.names ==> t.names[n] in t.inodes
  {
    map n | n in t.names :: t.inodes[t.names[n]].content
  }

  /** Allocation is a measurement, not an integrity field. */
  function Stable(r: Row): Row {
    r.(blocks := 0)
  }

  /** Two reports on one file that differ at most in allocation. */
  predicate SameButAllocation(a: Row, b: Row) {
    a.id == b.id && a.bytes == b.bytes && a.mtimeNs == b.mtimeNs && a.mode == b.mode && a.nlink == b.nlink
    && a.ftype == b.ftype
  }

  lemma StableTells(a: Row, b: Row)
    ensures Stable(a) == Stable(b) <==> SameButAllocation(a, b)
  {
  }

  /** A row that says of a name what the tree holds, whatever it says of allocation. */
  predicate Reports(t: Tree, n: Name, row: Row) {
    && n in t.names && t.names[n] in t.inodes
    && var node := t.inodes[t.names[n]];
    && row.id == t.names[n] && row.bytes == |node.content| && row.mtimeNs == node.mtimeNs && row.mode == node.mode
    && row.nlink == node.nlink && row.ftype == node.ftype
  }

  lemma ReportTells(t: Tree, n: Name, row: Row, alloc: Allocation)
    requires n in t.names && t.names[n] in t.inodes
    ensures Stable(Metadata(t, n, alloc)) == Stable(row) <==> Reports(t, n, row)
  {
  }

  /** Rows and contents that are those of the tree, name by name. */
  ghost predicate Describes(files: map<Name, Row>, contents: map<Name, Content>, t: Tree) {
    && files.Keys == contents.Keys == t.names.Keys
    && forall n :: n in t.names ==> Reports(t, n, files[n]) && contents[n] == t.inodes[t.names[n]].content
  }

  lemma InventoryTells(t: Tree, files: map<Name, Row>, contents: map<Name, Content>, alloc: Allocation)
    requires forall n :: n in t.names ==> t.names[n] in t.inodes
    ensures StableRows(Inventory(t, alloc)) == StableRows(files) && Contents(t) == contents <==> Describes(files, contents, t)
  {
    hide Stable, Metadata, Reports;
    var rows := Inventory(t, alloc);
    forall n | n in t.names ensures n in files ==> (Stable(rows[n]) == Stable(files[n]) <==> Reports(t, n, files[n])) {
      if n in files {
        ReportTells(t, n, files[n], alloc);
      }
    }
    assert StableRows(rows).Keys == t.names.Keys && StableRows(files).Keys == files.Keys && Contents(t).Keys == t.names.Keys;
    if StableRows(rows) == StableRows(files) && Contents(t) == contents {
      assert forall n :: n in t.names ==> StableRows(rows)[n] == Stable(rows[n]) == StableRows(files)[n] == Stable(files[n]);
      ReportNames(t, files);
    }
    if Describes(files, contents, t) {
      assert StableRows(rows) == StableRows(files);
    }
  }

  lemma ReportNames(t: Tree, files: map<Name, Row>)
    ensures forall n :: n in files && Reports(t, n, files[n]) ==> n in t.names && t.names[n] in t.inodes
  {
  }

  function StableRows(rows: map<Name, Row>): map<Name, Row> {
    map n | n in rows :: Stable(rows[n])
  }

  /** How many links of one inode a set of names takes. */
  ghost function Taken(t: Tree, s: set<Name>, id: FileId): nat {
    |Links(t, id) * s|
  }

  /** The tree after the names in s have been unlinked. */
  ghost function Without(t: Tree, s: set<Name>): Tree {
    Tree(t.names - s,
         map id | id in t.inodes && Taken(t, s, id) < t.inodes[id].nlink ::
           t.inodes[id].(nlink := t.inodes[id].nlink - Taken(t, s, id)))
  }

  /** One unlink: the name goes, and so does the inode with its last link. */
  function Unlinked(t: Tree, n: Name): Tree
    requires n in t.names && t.names[n] in t.inodes && 0 < t.inodes[t.names[n]].nlink
  {
    var id := t.names[n];
    var node := t.inodes[id];
    Tree(t.names - {n}, if node.nlink == 1 then t.inodes - {id} else t.inodes[id := node.(nlink := node.nlink - 1)])
  }

  lemma WithoutNothing(t: Tree)
    requires WellFormed(t)
    ensures Without(t, {}) == t
  {
    hide Links, Taken;
    assert t.names - {} == t.names;
    forall id ensures Taken(t, {}, id) == 0 {
      TakenNothing(t, id);
    }
    assert Without(t, {}).inodes == t.inodes;
  }

  lemma TakenNothing(t: Tree, id: FileId)
    ensures Taken(t, {}, id) == 0
  {
    assert Links(t, id) * {} == {};
  }

  lemma TakenOneMore(t: Tree, s: set<Name>, n: Name, id: FileId)
    requires n !in s
    ensures Taken(t, s + {n}, id) == Taken(t, s, id) + (if n in t.names && t.names[n] == id then 1 else 0)
  {
    if n in t.names && t.names[n] == id {
      assert Links(t, id) * (s + {n}) == (Links(t, id) * s) + {n};
    } else {
      assert Links(t, id) * (s + {n}) == Links(t, id) * s;
    }
  }

  lemma TakenAtMostLinks(t: Tree, s: set<Name>, id: FileId)
    requires WellFormed(t) && id in t.inodes
    ensures Taken(t, s, id) <= |Links(t, id)| <= t.inodes[id].nlink
  {
    Lists.SubsetSize(Links(t, id) * s, Links(t, id));
  }

  /** While a name is still there its inode is too, with one link fewer for every peer already gone. */
  lemma StillLinked(t: Tree, s: set<Name>, n: Name)
    requires WellFormed(t) && n in t.names && n !in s
    ensures n in Without(t, s).names && Without(t, s).names[n] == t.names[n]
    ensures t.names[n] in t.inodes && t.names[n] in Without(t, s).inodes
    ensures Taken(t, s, t.names[n]) < t.inodes[t.names[n]].nlink
    ensures Without(t, s).inodes[t.names[n]]
            == t.inodes[t.names[n]].(nlink := t.inodes[t.names[n]].nlink - Taken(t, s, t.names[n]))
  {
    TakenOneMore(t, s, n, t.names[n]);
    TakenAtMostLinks(t, s + {n}, t.names[n]);
  }

  /** Unlinking names one at a time, in any order, reaches the tree without them. */
  lemma UnlinkOneMore(t: Tree, s: set<Name>, n: Name)
    requires WellFormed(t) && n in t.names && n !in s
    ensures n in Without(t, s).names && Without(t, s).names[n] in Without(t, s).inodes
    ensures 0 < Without(t, s).inodes[Without(t, s).names[n]].nlink
    ensures Unlinked(Without(t, s), n) == Without(t, s + {n})
  {
    hide Links, Taken;
    StillLinked(t, s, n);
    var u, w := Without(t, s), Without(t, s + {n});
    var v := Unlinked(u, n);
    assert w.names == v.names;
    forall id ensures id in v.inodes <==> id in w.inodes
      ensures id in v.inodes && id in w.inodes ==> v.inodes[id] == w.inodes[id]
    {
      TakenOneMore(t, s, n, id);
    }
    assert v.inodes == w.inodes;
  }

  /** A set of names that takes every link of an inode, those outside the tree included, or none. */
  ghost predicate TakesWholeInodes(t: Tree, s: set<Name>) {
    forall n :: n in s ==> n in t.names && t.names[n] in t.inodes && WholeInode(t, s, t.names[n])
  }

  ghost predicate WholeInode(t: Tree, s: set<Name>, id: FileId)
    requires id in t.inodes
  {
    Links(t, id) <= s && |Links(t, id)| == t.inodes[id].nlink
  }

  lemma WholeOrUntouched(t: Tree, s: set<Name>, id: FileId)
    requires WellFormed(t) && TakesWholeInodes(t, s) && id in t.inodes
    ensures Taken(t, s, id) == 0 || (WholeInode(t, s, id) && Taken(t, s, id) == t.inodes[id].nlink)
    ensures Taken(t, s, id) == 0 <==> (forall n :: n in s ==> t.names[n] != id)
  {
    forall n | n in s && t.names[n] == id ensures Links(t, id) * s != {} {
      assert n in Links(t, id) * s;
    }
    if n :| n in Links(t, id) * s {
      assert WholeInode(t, s, t.names[n]);
      assert Links(t, id) * s == Links(t, id);
      assert n in s && t.names[n] == id;
    }
  }

  lemma RetainedInodes(t: Tree, s: set<Name>, id: FileId)
    requires WellFormed(t) && TakesWholeInodes(t, s)
    ensures id in Without(t, s).inodes <==> id in t.inodes && forall n :: n in s ==> t.names[n] != id
    ensures id in Without(t, s).inodes ==> Without(t, s).inodes[id] == t.inodes[id]
  {
    if id in t.inodes {
      WholeOrUntouched(t, s, id);
    }
  }

  lemma RetainedName(t: Tree, s: set<Name>, n: Name)
    requires WellFormed(t) && TakesWholeInodes(t, s) && n in t.names
    ensures n in s || (t.names[n] in Without(t, s).inodes && Without(t, s).inodes[t.names[n]] == t.inodes[t.names[n]])
  {
    var id := t.names[n];
    RetainedInodes(t, s, id);
    if m :| m in s && t.names[m] == id {
      assert WholeInode(t, s, t.names[m]);
      assert n in Links(t, id);
    }
  }

  lemma RetainedNames(t: Tree, s: set<Name>)
    requires WellFormed(t) && TakesWholeInodes(t, s)
    ensures forall n :: n in Without(t, s).names ==> t.names[n] in Without(t, s).inodes
    ensures forall n :: n in Without(t, s).names ==> Without(t, s).inodes[t.names[n]] == t.inodes[t.names[n]]
  {
    forall n | n in Without(t, s).names
      ensures t.names[n] in Without(t, s).inodes && Without(t, s).inodes[t.names[n]] == t.inodes[t.names[n]]
    {
      RetainedName(t, s, n);
    }
  }

  /** Removing whole inodes leaves every other row, its link count included, and its content as it was. */
  lemma RetainedUnchanged(t: Tree, s: set<Name>, alloc: Allocation)
    requires WellFormed(t) && TakesWholeInodes(t, s)
    ensures forall n :: n in Without(t, s).names ==> Without(t, s).names[n] in Without(t, s).inodes
    ensures Inventory(Without(t, s), alloc) == Inventory(t, alloc) - s
    ensures Contents(Without(t, s)) == Contents(t) - s
  {
    RetainedNames(t, s);
    var u := Without(t, s);
    SameRows(t, u, s, alloc);
  }

  lemma SameRows(t: Tree, u: Tree, s: set<Name>, alloc: Allocation)
    requires forall n :: n in t.names ==> t.names[n] in t.inodes
    requires u.names == t.names - s
    requires forall n :: n in u.names ==> t.names[n] in u.inodes && u.inodes[t.names[n]] == t.inodes[t.names[n]]
    ensures Inventory(u, alloc) == Inventory(t, alloc) - s
    ensures Contents(u) == Contents(t) - s
  {
  }

  /** The live target directory: names and inodes updated in place. */
  class Target {
    var names: map<Name, FileId>
    var inodes: map<FileId, Inode>

    constructor (t: Tree)
      ensures Value() == t
    {
      names, inodes := t.names, t.inodes;
    }

    function Value(): Tree
      reads this
    {
      Tree(names, inodes)
    }

    method Unlink(n: Name)
      requires n in names && names[n] in inodes && 0 < inodes[names[n]].nlink
      modifies this
      ensures Value() == Unlinked(old(Value()), n)
    {
      var id := names[n];
      var node := inodes[id];
      names := names - {n};
      if node.nlink == 1 {
        inodes := inodes - {id};
      } else {
        inodes := inodes[id := node.(nlink := node.nlink - 1)];
      }
    }
  }
}
