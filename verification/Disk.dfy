/** The filesystem under the server, as system calls see it: a set of absolute paths below
    the exported root, each naming one inode. */
module Disk {
  import opened Bytes
  import opened FileTypes
  import opened Conversions

  /** A single path component: not empty, no separator or NUL, neither "." nor "..". */
  predicate SingleComponent(s: seq<byte>) {
    s != [] && 0x2F !in s && 0 !in s && s != [0x2E] && s != [0x2E, 0x2E]
  }

  type Name = s: seq<byte> | SingleComponent(s) witness [0x61]

  /** Components below the exported root; the root itself is the empty path. */
  type Path = seq<Name>

  datatype Node = Node(inode: u64, kind: FileType, mode: u16, data: seq<byte>)

  type Disk = map<Path, Node>

  datatype Result<+T> = Ok(value: T) | Err(kind: ErrorKind)

  function Parent(p: Path): Path
    requires p != []
  {
    p[..|p| - 1]
  }

  function Last(p: Path): Name
    requires p != []
  {
    p[|p| - 1]
  }

  predicate IsDir(d: Disk, p: Path) {
    p in d && d[p].kind.Directory?
  }

  /** Every node but the root lies in a directory, and inode numbers are unique. */
  ghost predicate WellFormed(d: Disk) {
    && (forall p | p in d && p != [] :: IsDir(d, Parent(p)))
    && (forall p, q | p in d && q in d && d[p].inode == d[q].inode :: p == q)
  }

  ghost predicate HasInode(d: Disk, i: u64) {
    exists p :: p in d && d[p].inode == i
  }

  // ----- System calls -----

  const ENOTEMPTY := 39

  /** Why a path does not resolve: a missing component, or a component below a non-directory. */
  function Unresolved(d: Disk, p: Path): (kind: ErrorKind)
    ensures kind.NotFoundKind? || kind.NotADirectory?
    decreases |p|
  {
    if p == [] then NotFoundKind
    else if Parent(p) in d then (if IsDir(d, Parent(p)) then NotFoundKind else NotADirectory)
    else Unresolved(d, Parent(p))
  }

  function Stat(d: Disk, p: Path): Result<Node> {
    if p in d then Ok(d[p]) else Err(Unresolved(d, p))
  }

  /** Opening for writing with O_CREAT: a fresh inode if there was nothing at the path. */
  function OpenCreate(d: Disk, p: Path, exclusive: bool, truncate: bool, newInode: u64): Result<Disk>
    requires p != []
  {
    if p in d then
      if exclusive then Err(AlreadyExists)
      else if d[p].kind.Directory? then Err(IsADirectory)
      else if !d[p].kind.RegularFile? then Err(Other)
      else Ok(if truncate then d[p := d[p].(data := [])] else d)
    else if IsDir(d, Parent(p)) then Ok(d[p := Node(newInode, RegularFile, 0, [])])
    else Err(Unresolved(d, p))
  }

  function MakeDir(d: Disk, p: Path, newInode: u64): Result<Disk>
    requires p != []
  {
    if p in d then Err(AlreadyExists)
    else if IsDir(d, Parent(p)) then Ok(d[p := Node(newInode, Directory, 0, [])])
    else Err(Unresolved(d, p))
  }

  function SetPermissions(d: Disk, p: Path, mode: u16): Disk
    requires p in d
  {
    d[p := d[p].(mode := mode)]
  }

  function RemoveTree(d: Disk, p: Path): Disk {
    map q | q in d && !(p <= q) :: d[q]
  }

  function RemoveFile(d: Disk, p: Path): Disk {
    d - {p}
  }

  /** The path `q` below `from`, as it reads below `to`. */
  function Rebase(from: Path, to: Path, q: Path): Path
    requires from <= q
  {
    to + q[|from|..]
  }

  function MoveTree(d: Disk, from: Path, to: Path): Disk {
    var stays := map q | q in d && !(from <= q) :: d[q];
    var targets := set q | q in d && from <= q :: Rebase(from, to, q);
    var moved := map r | r in targets && to <= r && Rebase(to, from, r) in d :: d[Rebase(to, from, r)];
    stays + moved
  }

  /** Moving onto a path, whatever it names: a file gives way to a file, and an empty directory
      to a directory. */
  function RenamePath(d: Disk, from: Path, to: Path): Result<Disk>
    requires to != []
  {
    if !IsDir(d, Parent(to)) then Err(Unresolved(d, to))
    else if from !in d then Err(Unresolved(d, from))
    else if from == to then Ok(d)
    else if from <= to then Err(InvalidInput)
    else if to !in d then Ok(MoveTree(d, from, to))
    else if IsDir(d, from) && !IsDir(d, to) then Err(NotADirectory)
    else if !IsDir(d, from) && IsDir(d, to) then Err(IsADirectory)
    else if RemoveTree(d, to) != RemoveFile(d, to) then Err(Unlisted(ENOTEMPTY))
    else Ok(MoveTree(RemoveTree(d, to), from, to))
  }

  // ----- What the calls do to the set of paths -----

  lemma RebaseBack(from: Path, to: Path, q: Path)
    requires from <= q
    ensures to <= Rebase(from, to, q) && Rebase(to, from, Rebase(from, to, q)) == q
  {
  }

  /** Every prefix of a path that resolves, resolves. */
  lemma {:induction false} PrefixPresent(d: Disk, p: Path, q: Path)
    requires WellFormed(d) && p <= q && q in d
    ensures p in d
    ensures p != q ==> IsDir(d, p)
    decreases |q|
  {
    if p != q {
      assert p <= Parent(q);
      PrefixPresent(d, p, Parent(q));
    }
  }

  /** Moving a tree to a free place renames exactly the paths at or below it. */
  lemma MovedPaths(d: Disk, from: Path, to: Path)
    requires WellFormed(d) && to !in d
    ensures forall q | q in d && from <= q ::
              Rebase(from, to, q) in MoveTree(d, from, to) && MoveTree(d, from, to)[Rebase(from, to, q)] == d[q]
    ensures forall q | q in d && !(from <= q) :: q in MoveTree(d, from, to) && MoveTree(d, from, to)[q] == d[q]
    ensures forall r | r in MoveTree(d, from, to) ::
              || (r in d && !(from <= r))
              || (to <= r && Rebase(to, from, r) in d)
  {
    forall q | q in d && from <= q
      ensures Rebase(from, to, q) in MoveTree(d, from, to) && MoveTree(d, from, to)[Rebase(from, to, q)] == d[q]
    {
      RebaseBack(from, to, q);
    }
    forall q | q in d && !(from <= q)
      ensures q in MoveTree(d, from, to) && MoveTree(d, from, to)[q] == d[q]
    {
      if to <= q {
        PrefixPresent(d, to, q);
      }
    }
  }
}
