/** The three trees a restore writes to, one filesystem call at a time, with faults. */
module RestoreDisk {
  import opened Common
  import opened RestoreJournal

  datatype Loc = Loc(root: Root, path: Path)

  datatype Node = Dir(mode: nat) | File(bytes: string, mode: nat)

  /** Everything below the three roots; a root itself, path [], is always a directory. */
  type Tree = map<Loc, Node>

  function Parent(l: Loc): Loc
    requires l.path != []
  {
    Loc(l.root, RestoreJournal.Dir(l.path))
  }

  predicate IsDir(t: Tree, l: Loc) {
    l.path == [] || (l in t && t[l].Dir?)
  }

  predicate IsFile(t: Tree, l: Loc) {
    l in t && t[l].File?
  }

  predicate HasChild(t: Tree, l: Loc) {
    exists c :: c in t && c.path != [] && Parent(c) == l
  }

  predicate Hangs(t: Tree, l: Loc) {
    l.path != [] && IsDir(t, Parent(l))
  }

  /** Every entry hangs below a directory. */
  ghost predicate Tidy(t: Tree) {
    forall l {:trigger Hangs(t, l)} :: l in t ==> Hangs(t, l)
  }

  lemma {:induction false} AncestorIsDir(t: Tree, l: Loc, q: Path)
    requires Tidy(t) && l in t && q < l.path
    ensures IsDir(t, Loc(l.root, q))
    decreases |l.path|
  {
    assert Hangs(t, l);
    if q != Parent(l).path { AncestorIsDir(t, Parent(l), q); }
  }

  /** Opening a directory one component at a time: a missing component is not an error, a file on the way is. */
  datatype Opening = Opened | Absent | Blocked

  function Open(t: Tree, root: Root, p: Path): Opening {
    if p == [] then Opened
    else match Open(t, root, RestoreJournal.Dir(p))
      case Opened =>
        if Loc(root, p) !in t then Absent else if t[Loc(root, p)].Dir? then Opened else Blocked
      case Absent => Absent
      case Blocked => Blocked
  }

  /** No proper ancestor of p is a file. */
  ghost predicate Unblocked(t: Tree, root: Root, p: Path) {
    forall q :: q < p && Loc(root, q) in t ==> t[Loc(root, q)].Dir?
  }

  lemma {:induction false} OpenTidy(t: Tree, root: Root, p: Path)
    requires Tidy(t)
    ensures Open(t, root, p).Opened? <==> IsDir(t, Loc(root, p))
    ensures Open(t, root, p).Blocked? ==> exists q :: q <= p && Loc(root, q) in t && t[Loc(root, q)].File?
  {
    if p != [] {
      OpenTidy(t, root, RestoreJournal.Dir(p));
      if Open(t, root, RestoreJournal.Dir(p)).Blocked? {
        var q :| q <= RestoreJournal.Dir(p) && Loc(root, q) in t && t[Loc(root, q)].File?;
        assert q <= p;
      } else if Open(t, root, p).Blocked? {
        assert p <= p && Loc(root, p) in t && t[Loc(root, p)].File?;
      }
      assert Loc(root, p) in t ==> Hangs(t, Loc(root, p));
    }
  }

  lemma OpenUnblocked(t: Tree, root: Root, p: Path)
    requires Tidy(t) && p != [] && Unblocked(t, root, p)
    ensures Open(t, root, RestoreJournal.Dir(p))
      == if IsDir(t, Loc(root, RestoreJournal.Dir(p))) then Opened else Absent
  {
    OpenTidy(t, root, RestoreJournal.Dir(p));
  }

  function RemoveEntry(t: Tree, l: Loc): Option<Tree> {
    if l !in t || HasChild(t, l) then None else Some(t - {l})
  }

  function RenameEntry(t: Tree, from: Loc, to: Loc): Option<Tree> {
    if !IsFile(t, from) || to.path == [] || !IsDir(t, Parent(to)) || (to in t && t[to].Dir?) then None
    else Some((t - {from})[to := t[from]])
  }

  function AddEntry(t: Tree, l: Loc, n: Node): Option<Tree> {
    if l.path == [] || l in t || !IsDir(t, Parent(l)) then None else Some(t[l := n])
  }

  datatype Disk = Disk(tree: Tree, journal: Option<seq<Record>>)

  /** One indivisible effect. Hook is a call into the caller's code. */
  datatype Step =
    | Mkdir(at: Loc, mode: nat)
    | Create(at: Loc, node: Node)
    | Rename(from: Loc, to: Loc)
    | Remove(at: Loc)
    | Append(record: Record)
    | DropJournal
    | Hook

  function OnTree(d: Disk, t: Option<Tree>): Option<Disk> {
    if t.None? then None else Some(d.(tree := t.value))
  }

  /** The call's effect, or None when the filesystem refuses it. */
  function Apply(d: Disk, s: Step): Option<Disk> {
    match s
    case Mkdir(l, mode) => OnTree(d, AddEntry(d.tree, l, Dir(mode)))
    case Create(l, node) => OnTree(d, AddEntry(d.tree, l, node))
    case Rename(from, to) => OnTree(d, RenameEntry(d.tree, from, to))
    case Remove(l) => OnTree(d, RemoveEntry(d.tree, l))
    case Append(r) =>
      if d.journal.None? || !JournalFits(d.journal.value + [r]) then None
      else Some(d.(journal := Some(d.journal.value + [r])))
    case DropJournal => Some(d.(journal := None))
    case Hook => Some(d)
  }

  class Host {
    var disk: Disk
    var faults: seq<Fault>  // one per coming step; no faults once it is used up

    constructor (disk: Disk, faults: seq<Fault>)
      ensures this.disk == disk && this.faults == faults
    {
      this.disk, this.faults := disk, faults;
    }

    method Do(s: Step) returns (status: Status)
      modifies this
      ensures disk == old(disk) || Apply(old(disk), s) == Some(disk)
      ensures status.Done? ==> Apply(old(disk), s) == Some(disk)
      ensures faults == if old(faults) == [] then [] else old(faults)[1..]
      ensures old(faults) == [] || old(faults)[0].Run? ==>
        if Apply(old(disk), s).Some? then status.Done? else status.Failed? && disk == old(disk)
      ensures old(faults) != [] && old(faults)[0].Crash? ==> status.Crashed? && disk == old(disk)
    {
      var fault := Run;
      if faults != [] {
        fault, faults := faults[0], faults[1..];
      }
      var effect := Apply(disk, s);
      match fault {
        case Run =>
          if effect.None? { return Failed; }
          disk := effect.value;
          return Done;
        case Refuse => return Failed;
        case Landed =>
          if effect.Some? { disk := effect.value; }
          return Failed;
        case Crash => return Crashed;
      }
    }
  }

  // ---- The transaction's own directory, seen apart from managed content

  predicate InTxn(l: Loc, txn: string) {
    l.path != [] && l.path[0] == txn
  }

  /** The trees without the transaction directories. */
  function Managed(t: Tree, txn: string): Tree {
    map l | l in t && !InTxn(l, txn) :: t[l]
  }

  function StageLoc(txn: string, root: Root, target: Path): Loc {
    Loc(root, [txn, "stage"] + target)
  }

  function RollbackLoc(txn: string, root: Root, target: Path): Loc {
    Loc(root, [txn, "rollback"] + target)
  }

  lemma ManagedPut(t: Tree, txn: string, l: Loc, n: Node)
    ensures Managed(t[l := n], txn) == if InTxn(l, txn) then Managed(t, txn) else Managed(t, txn)[l := n]
  {
  }

  lemma ManagedDrop(t: Tree, txn: string, l: Loc)
    ensures Managed(t - {l}, txn) == if InTxn(l, txn) then Managed(t, txn) else Managed(t, txn) - {l}
  {
  }

  lemma TidyPut(t: Tree, l: Loc, n: Node)
    requires Tidy(t) && l.path != [] && IsDir(t, Parent(l)) && (l in t && t[l].Dir? ==> n.Dir?)
    ensures Tidy(t[l := n])
  {
    var t' := t[l := n];
    forall x | x in t'
      ensures Hangs(t', x)
    {
      assert x in t ==> Hangs(t, x);
    }
  }

  lemma FileNoChild(t: Tree, l: Loc)
    requires Tidy(t) && IsFile(t, l)
    ensures !HasChild(t, l)
  {
    assert Hangs(t, l);
    forall c | c in t && c.path != []
      ensures Parent(c) != l
    {
      assert Hangs(t, c);
    }
  }

  lemma TidyDrop(t: Tree, l: Loc)
    requires Tidy(t) && !HasChild(t, l)
    ensures Tidy(t - {l})
  {
    forall x | x in t - {l}
      ensures Hangs(t - {l}, x)
    {
      assert Hangs(t, x);
    }
  }

  lemma ManagedTidy(t: Tree, txn: string)
    requires Tidy(t)
    ensures Tidy(Managed(t, txn))
  {
    forall x | x in Managed(t, txn)
      ensures Hangs(Managed(t, txn), x)
    {
      assert Hangs(t, x);
    }
  }

  /** Slots of different targets are different places, apart from each other and from managed content. */
  lemma SlotsApart(txn: string, r0: Root, p0: Path, r1: Root, p1: Path)
    ensures InTxn(StageLoc(txn, r0, p0), txn) && InTxn(RollbackLoc(txn, r0, p0), txn)
    ensures StageLoc(txn, r0, p0) != RollbackLoc(txn, r1, p1)
    ensures RollbackLoc(txn, r0, p0) == RollbackLoc(txn, r1, p1) ==> r0 == r1 && p0 == p1
    ensures StageLoc(txn, r0, p0) == StageLoc(txn, r1, p1) ==> r0 == r1 && p0 == p1
  {
    var a, b := RollbackLoc(txn, r0, p0), RollbackLoc(txn, r1, p1);
    assert a.path[2..] == p0 && b.path[2..] == p1;
    var c, d := StageLoc(txn, r0, p0), StageLoc(txn, r1, p1);
    assert c.path[2..] == p0 && d.path[2..] == p1;
    assert c.path[1] == "stage" && b.path[1] == "rollback";
  }
}
