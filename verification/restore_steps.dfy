/** Each filesystem step of a promotion, and the recovery step that undoes it. */
module RestoreSteps {
  import opened Common
  import opened RestoreJournal
  import opened RestoreDisk
  import opened RestorePlan

  /** Content inside the transaction directories is the same in both trees. */
  ghost predicate SameTxn(t: Tree, t': Tree, txn: string) {
    forall l :: InTxn(l, txn) ==> (l in t <==> l in t') && (l in t ==> t[l] == t'[l])
  }

  lemma TailPrefix(h: Path, p: Path, q: Path)
    requires h + p < h + q
    ensures p < q
  {
    assert (h + p)[|h|..] == p && (h + q)[|h|..] == q;
  }

  lemma AreasApart(txn: string, p: Path, q: Path)
    ensures !([txn, "stage"] + p < [txn, "rollback"] + q) && !([txn, "rollback"] + p < [txn, "stage"] + q)
  {
    assert ([txn, "stage"] + p)[1] == "stage" && ([txn, "rollback"] + q)[1] == "rollback";
    assert ([txn, "stage"] + q)[1] == "stage" && ([txn, "rollback"] + p)[1] == "rollback";
  }

  lemma SlotPlaces(run: RestoreRun, k: nat, i: nat)
    requires GoodPlan(run) && k < |run.plan| && i < |run.plan|
    ensures InTxn(Slot(run, i), Txn(run.header)) && InTxn(Stage(run, i), Txn(run.header))
    ensures !InTxn(Target(run.plan[i]), Txn(run.header))
    ensures Slot(run, k) != Stage(run, i)
    ensures k != i ==> Slot(run, k) != Slot(run, i) && Stage(run, k) != Stage(run, i)
    ensures run.plan[k].root == run.plan[i].root ==>
      !(Slot(run, k).path < Slot(run, i).path) && !(Slot(run, k).path < Stage(run, i).path)
      && !(Stage(run, k).path < Slot(run, i).path) && !(Stage(run, k).path < Stage(run, i).path)
  {
    PlanFacts(run);
    var a, b, txn := run.plan[k], run.plan[i], Txn(run.header);
    SlotsApart(txn, a.root, a.target, b.root, b.target);
    SlotsApart(txn, b.root, b.target, a.root, a.target);
    AreasApart(txn, a.target, b.target);
    if a.root == b.root && Slot(run, k).path < Slot(run, i).path {
      TailPrefix([txn, "rollback"], a.target, b.target);
    }
    if a.root == b.root && Stage(run, k).path < Stage(run, i).path {
      TailPrefix([txn, "stage"], a.target, b.target);
    }
  }

  /** A step on managed content leaves the slots as they are. */
  lemma SlotsFrame(run: RestoreRun, t: Tree, t': Tree, p: Position, p': Position)
    requires GoodPlan(run) && Tidy(t) && Tidy(t') && SameTxn(t, t', Txn(run.header)) && AtSlots(run, t, p)
    requires forall i :: 0 <= i < |run.plan| ==> InSlot(run, p, i) == InSlot(run, p', i)
    requires forall i :: 0 <= i < |run.plan| && i < p'.k ==> i < p.k || Stage(run, i) !in t
    ensures AtSlots(run, t', p')
  {
    forall i | 0 <= i < |run.plan|
      ensures SlotsRight(run, t', p', i)
    {
      assert SlotsRight(run, t, p, i);
      SlotPlaces(run, i, i);
      UnblockedFrame(t, t', Txn(run.header), Slot(run, i));
      UnblockedFrame(t, t', Txn(run.header), Stage(run, i));
    }
  }

  lemma UnblockedFrame(t: Tree, t': Tree, txn: string, l: Loc)
    requires InTxn(l, txn) && Tidy(t') && SameTxn(t, t', txn) && Unblocked(t, l.root, l.path)
    ensures Unblocked(t', l.root, l.path)
  {
    forall q | q < l.path && Loc(l.root, q) in t'
      ensures t'[Loc(l.root, q)].Dir?
    {
      assert Hangs(t', Loc(l.root, q));
      assert InTxn(Loc(l.root, q), txn);
    }
  }

  lemma CreatedManaged(run: RestoreRun, k: nat, j: nat)
    requires GoodPlan(run) && k < |run.plan| && j < |Created(run, k)|
    ensures Created(run, k)[j] != [] && Created(run, k)[j] < run.plan[k].target
    ensures !InTxn(Loc(run.plan[k].root, Created(run, k)[j]), Txn(run.header))
    ensures Loc(run.plan[k].root, Created(run, k)[j]) !in Level(run, k)
    ensures forall i :: 0 <= i < j ==> Created(run, k)[i] != Created(run, k)[j]
  {
    PlanFacts(run);
    var s := run.plan[k];
    MissingShape(Level(run, k), s.root, RestoreJournal.Dir(s.target));
    assert Created(run, k)[j][0] == s.target[0];
  }

  lemma ViewStep(run: RestoreRun, k: nat, j: nat)
    requires GoodPlan(run) && k < |run.plan| && j < |Created(run, k)|
    ensures var d := Loc(run.plan[k].root, Created(run, k)[j]);
      var v, v' := View(run, Position(k, MakingDirs(j))), View(run, Position(k, MakingDirs(j + 1)));
      d !in v && v' == v[d := Node.Dir(DirectoryMode(d.root))]
  {
    CreatedManaged(run, k, j);
    var c := Created(run, k);
    assert c[..j + 1][..j] == c[..j];
    WithDirsAt(Level(run, k), run.plan[k].root, c[..j], Loc(run.plan[k].root, c[j]));
  }

  /** Making the next directory. */
  lemma MkdirStep(run: RestoreRun, t: Tree, t': Tree, k: nat, j: nat)
    requires k < |run.plan| && At(run, t, Position(k, MakingDirs(j))) && j < |Created(run, k)|
    requires AddEntry(t, Loc(run.plan[k].root, Created(run, k)[j]), Node.Dir(DirectoryMode(run.plan[k].root)))
      == Some(t')
    ensures At(run, t', Position(k, MakingDirs(j + 1)))
  {
    Viewed(run, t, Position(k, MakingDirs(j)));
    var d, n := Loc(run.plan[k].root, Created(run, k)[j]), Node.Dir(DirectoryMode(run.plan[k].root));
    CreatedManaged(run, k, j);
    ViewStep(run, k, j);
    ManagedPut(t, Txn(run.header), d, n);
    TidyPut(t, d, n);
    SlotsFrame(run, t, t', Position(k, MakingDirs(j)), Position(k, MakingDirs(j + 1)));
    MakeView(run, t', Position(k, MakingDirs(j + 1)));
  }

  /** Removing the last directory made undoes MkdirStep. */
  lemma RmdirStep(run: RestoreRun, t: Tree, t': Tree, k: nat, j: nat)
    requires k < |run.plan| && At(run, t, Position(k, MakingDirs(j + 1)))
    requires RemoveEntry(t, Loc(run.plan[k].root, Created(run, k)[j])) == Some(t')
    ensures At(run, t', Position(k, MakingDirs(j)))
  {
    Viewed(run, t, Position(k, MakingDirs(j + 1)));
    var d := Loc(run.plan[k].root, Created(run, k)[j]);
    CreatedManaged(run, k, j);
    ViewStep(run, k, j);
    ManagedDrop(t, Txn(run.header), d);
    TidyDrop(t, d);
    SlotsFrame(run, t, t', Position(k, MakingDirs(j + 1)), Position(k, MakingDirs(j)));
    MakeView(run, t', Position(k, MakingDirs(j)));
  }

  lemma ViewChildren(run: RestoreRun, k: nat, j: nat, x: Loc)
    requires GoodPlan(run) && k < |run.plan| && j < |Created(run, k)| && Tidy(Level(run, k))
    requires x in View(run, Position(k, MakingDirs(j + 1))) && x.path != []
    ensures Parent(x) != Loc(run.plan[k].root, Created(run, k)[j])
  {
    var s, c := run.plan[k], Created(run, k);
    CreatedManaged(run, k, j);
    MissingShape(Level(run, k), s.root, RestoreJournal.Dir(s.target));
    WithDirsAt(Level(run, k), s.root, c[..j + 1], x);
    if x in Level(run, k) {
      assert Hangs(Level(run, k), x);
    } else {
      assert x.root == s.root && |x.path| <= |c[j]|;
    }
  }

  /** When the last directory made is to be removed, only undone promotions had put anything into it. */
  lemma RmdirPossible(run: RestoreRun, t: Tree, k: nat, j: nat)
    requires k < |run.plan| && At(run, t, Position(k, MakingDirs(j + 1)))
    ensures RemoveEntry(t, Loc(run.plan[k].root, Created(run, k)[j])).Some?
    ensures t[Loc(run.plan[k].root, Created(run, k)[j])].Dir?
  {
    Viewed(run, t, Position(k, MakingDirs(j + 1)));
    var d, txn := Loc(run.plan[k].root, Created(run, k)[j]), Txn(run.header);
    CreatedManaged(run, k, j);
    ViewStep(run, k, j);
    assert d in Managed(t, txn);
    forall x | x in t && x.path != []
      ensures Parent(x) != d
    {
      if !InTxn(x, txn) {
        assert x in Managed(t, txn);
        ViewChildren(run, k, j, x);
      }
    }
  }

  lemma RenameTidy(t: Tree, from: Loc, to: Loc)
    requires Tidy(t) && RenameEntry(t, from, to).Some?
    ensures Tidy(RenameEntry(t, from, to).value)
  {
    FileNoChild(t, from);
    TidyDrop(t, from);
    TidyPut(t - {from}, to, t[from]);
  }

  lemma RenameManaged(t: Tree, from: Loc, to: Loc, txn: string)
    requires RenameEntry(t, from, to).Some? && from != to
    ensures var m, t' := Managed(t, txn), RenameEntry(t, from, to).value;
      Managed(t', txn) ==
        var dropped := if InTxn(from, txn) then m else m - {from};
        if InTxn(to, txn) then dropped else dropped[to := t[from]]
  {
    ManagedDrop(t, txn, from);
    ManagedPut(t - {from}, txn, to, t[from]);
  }

  /** Unblocked paths stay so when a file lands on a slot that is above none of them. */
  lemma UnblockedPut(t: Tree, t': Tree, root: Root, p: Path, l: Loc)
    requires Unblocked(t, root, p) && (l.root == root ==> !(l.path < p))
    requires forall x :: x in t' && x != l ==> x in t && t'[x] == t[x]
    ensures Unblocked(t', root, p)
  {
  }

  /** The renames of promotion k: original to slot, slot back, staged file into place. */
  predicate RenameOf(run: RestoreRun, from: Loc, to: Loc, k: nat)
    requires k < |run.plan|
  {
    || (from == Target(run.plan[k]) && to == Slot(run, k))
    || (to == Target(run.plan[k]) && (from == Slot(run, k) || from == Stage(run, k)))
  }

  lemma OtherSlot(run: RestoreRun, t: Tree, t': Tree, from: Loc, to: Loc, k: nat, p: Position, p': Position, i: nat)
    requires GoodPlan(run) && k < |run.plan| && i < |run.plan| && i != k && RenameOf(run, from, to, k)
    requires SlotsRight(run, t, p, i) && RenameEntry(t, from, to) == Some(t')
    requires InSlot(run, p, i) == InSlot(run, p', i) && (i < p'.k ==> i < p.k)
    ensures SlotsRight(run, t', p', i)
  {
    SlotPlaces(run, k, i);
    SlotPlaces(run, i, k);
    SlotPlaces(run, i, i);
    UnblockedPut(t, t', run.plan[i].root, Slot(run, i).path, to);
    UnblockedPut(t, t', run.plan[i].root, Stage(run, i).path, to);
  }

  lemma OwnSlot(run: RestoreRun, t: Tree, t': Tree, from: Loc, to: Loc, k: nat, p: Position, p': Position)
    requires GoodPlan(run) && k < |run.plan| && RenameOf(run, from, to, k)
    requires SlotsRight(run, t, p, k) && RenameEntry(t, from, to) == Some(t')
    requires InSlot(run, p', k) == if from == Slot(run, k) then false else to == Slot(run, k) || InSlot(run, p, k)
    requires to == Slot(run, k) ==> from in run.pre && t[from] == run.pre[from]
    requires k < p'.k ==> k < p.k || from == Stage(run, k)
    ensures SlotsRight(run, t', p', k)
  {
    SlotPlaces(run, k, k);
    UnblockedPut(t, t', run.plan[k].root, Slot(run, k).path, to);
    UnblockedPut(t, t', run.plan[k].root, Stage(run, k).path, to);
  }

  /** A rename of promotion k changes no other promotion's slots. */
  lemma SlotsRename(run: RestoreRun, t: Tree, t': Tree, from: Loc, to: Loc, k: nat, p: Position, p': Position)
    requires AtSlots(run, t, p) && GoodPlan(run) && k < |run.plan| && RenameEntry(t, from, to) == Some(t')
    requires RenameOf(run, from, to, k)
    requires forall i :: 0 <= i < |run.plan| && i != k ==> InSlot(run, p, i) == InSlot(run, p', i)
    requires InSlot(run, p', k) == if from == Slot(run, k) then false else to == Slot(run, k) || InSlot(run, p, k)
    requires to == Slot(run, k) ==> from in run.pre && t[from] == run.pre[from]
    requires p'.k <= p.k || (p'.k == p.k + 1 && p.k == k && from == Stage(run, k))
    ensures AtSlots(run, t', p')
  {
    forall i | 0 <= i < |run.plan|
      ensures SlotsRight(run, t', p', i)
    {
      assert SlotsRight(run, t, p, i);
      if i == k { OwnSlot(run, t, t', from, to, k, p, p'); } else { OtherSlot(run, t, t', from, to, k, p, p', i); }
    }
  }

  /** Renaming the original into its rollback slot. */
  lemma MoveAside(run: RestoreRun, t: Tree, t': Tree, k: nat)
    requires k < |run.plan| && At(run, t, Position(k, MakingDirs(0))) && Existed(run, k)
    requires RenameEntry(t, Target(run.plan[k]), Slot(run, k)) == Some(t')
    ensures At(run, t', Position(k, Moved))
  {
    Viewed(run, t, Position(k, MakingDirs(0)));
    var from, to, txn := Target(run.plan[k]), Slot(run, k), Txn(run.header);
    SlotPlaces(run, k, k);
    RenameTidy(t, from, to);
    RenameManaged(t, from, to, txn);
    TargetUntouched(run, k, k);
    StartView(run, k);
    assert from in Managed(t, txn) && t[from] == run.pre[from];
    SlotsRename(run, t, t', from, to, k, Position(k, MakingDirs(0)), Position(k, Moved));
    MakeView(run, t', Position(k, Moved));
  }

  /** Renaming the slot back undoes MoveAside. */
  lemma MoveBack(run: RestoreRun, t: Tree, t': Tree, k: nat)
    requires k < |run.plan| && At(run, t, Position(k, Moved))
    requires RenameEntry(t, Slot(run, k), Target(run.plan[k])) == Some(t')
    ensures At(run, t', Position(k, MakingDirs(0)))
  {
    Viewed(run, t, Position(k, Moved));
    var from, to, txn := Slot(run, k), Target(run.plan[k]), Txn(run.header);
    SlotPlaces(run, k, k);
    RenameTidy(t, from, to);
    RenameManaged(t, from, to, txn);
    TargetUntouched(run, k, k);
    StartView(run, k);
    assert SlotsRight(run, t, Position(k, Moved), k);
    assert (Level(run, k) - {to})[to := run.pre[to]] == Level(run, k);
    SlotsRename(run, t, t', from, to, k, Position(k, Moved), Position(k, MakingDirs(0)));
    MakeView(run, t', Position(k, MakingDirs(0)));
  }

  /** Where promotion k stands just before, and recovery just after, its staged file is in place. */
  ghost function Ready(run: RestoreRun, k: nat): Local
    requires k < |run.plan|
  {
    if Existed(run, k) then Moved else MakingDirs(|Created(run, k)|)
  }

  lemma ReadyView(run: RestoreRun, k: nat)
    requires GoodPlan(run) && k < |run.plan| && Tidy(Level(run, k))
    ensures ValidPosition(run, Position(k, Ready(run, k)))
    ensures var v, l := View(run, Position(k, Ready(run, k))), Target(run.plan[k]);
      l !in v && Level(run, k + 1) == v[l := run.plan[k].node]
  {
    var s := run.plan[k];
    var c := Created(run, k);
    assert c[..|c|] == c;
    if Existed(run, k) {
      ExistedNoDirs(run, k);
      assert Level(run, k + 1) == Level(run, k)[Target(s) := s.node];
      assert (Level(run, k) - {Target(s)})[Target(s) := s.node] == Level(run, k)[Target(s) := s.node];
    } else {
      TargetFresh(run, Position(k, MakingDirs(|c|)), k);
    }
  }

  lemma StartView(run: RestoreRun, k: nat)
    requires GoodPlan(run) && k <= |run.plan|
    ensures ValidPosition(run, Position(k, MakingDirs(0)))
    ensures View(run, Position(k, MakingDirs(0))) == Level(run, k)
  {
  }

  lemma PlaceView(run: RestoreRun, t: Tree, t': Tree, k: nat)
    requires k < |run.plan| && AtView(run, t, Position(k, Ready(run, k)))
    requires RenameEntry(t, Stage(run, k), Target(run.plan[k])) == Some(t')
    requires t[Stage(run, k)] == run.plan[k].node
    ensures Tidy(t') && Managed(t', Txn(run.header)) == Level(run, k + 1)
  {
    Viewed(run, t, Position(k, Ready(run, k)));
    SlotPlaces(run, k, k);
    RenameTidy(t, Stage(run, k), Target(run.plan[k]));
    RenameManaged(t, Stage(run, k), Target(run.plan[k]), Txn(run.header));
    ReadyView(run, k);
  }

  lemma UnplaceView(run: RestoreRun, t: Tree, t': Tree, k: nat)
    requires k < |run.plan| && AtView(run, t, Position(k + 1, MakingDirs(0)))
    requires RemoveEntry(t, Target(run.plan[k])) == Some(t')
    ensures ValidPosition(run, Position(k, Ready(run, k)))
    ensures Tidy(t') && Managed(t', Txn(run.header)) == View(run, Position(k, Ready(run, k)))
  {
    Viewed(run, t, Position(k + 1, MakingDirs(0)));
    SlotPlaces(run, k, k);
    TidyDrop(t, Target(run.plan[k]));
    ManagedDrop(t, Txn(run.header), Target(run.plan[k]));
    ReadyView(run, k);
    StartView(run, k + 1);
    DropPut(View(run, Position(k, Ready(run, k))), Target(run.plan[k]), run.plan[k].node);
  }

  lemma DropPut(v: Tree, l: Loc, n: Node)
    requires l !in v
    ensures v[l := n] - {l} == v
  {
  }

  /** Renaming the staged file into place. */
  lemma PlaceStep(run: RestoreRun, t: Tree, t': Tree, k: nat)
    requires k < |run.plan| && At(run, t, Position(k, Ready(run, k)))
    requires RenameEntry(t, Stage(run, k), Target(run.plan[k])) == Some(t')
    requires t[Stage(run, k)] == run.plan[k].node
    ensures At(run, t', Position(k + 1, MakingDirs(0)))
  {
    Viewed(run, t, Position(k, Ready(run, k)));
    PlaceView(run, t, t', k);
    StartView(run, k + 1);
    ManagedTidy(t', Txn(run.header));
    SlotPlaces(run, k, k);
    MakeView(run, t', Position(k + 1, MakingDirs(0)));
    SlotsRename(run, t, t', Stage(run, k), Target(run.plan[k]), k,
      Position(k, Ready(run, k)), Position(k + 1, MakingDirs(0)));
  }

  /** Removing the file in place undoes PlaceStep. */
  lemma UnplaceStep(run: RestoreRun, t: Tree, t': Tree, k: nat)
    requires k < |run.plan| && At(run, t, Position(k + 1, MakingDirs(0)))
    requires RemoveEntry(t, Target(run.plan[k])) == Some(t')
    ensures At(run, t', Position(k, Ready(run, k)))
  {
    Viewed(run, t, Position(k + 1, MakingDirs(0)));
    UnplaceView(run, t, t', k);
    SlotPlaces(run, k, k);
    MakeView(run, t', Position(k, Ready(run, k)));
    SlotsFrame(run, t, t', Position(k + 1, MakingDirs(0)), Position(k, Ready(run, k)));
  }
}
