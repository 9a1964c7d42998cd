/** Archive entry names: which are accepted, and where each one is restored. */
module ArchivePaths {
  import opened Common
  import opened Splitting
  import RestoreJournal

  type Root = RestoreJournal.Root

  /** unicode.IsControl */
  predicate Control(c: char) {
    c as int < 0x20 || 0x7F <= c as int <= 0x9F
  }

  function Parts(name: string): Path {
    SplitOn('/', name)
  }

  function FromParts(parts: Path): string {
    JoinWith('/', parts)
  }

  // ---- path.Clean on a path that is not absolute

  /** One component against the stack of those kept. */
  function Push(stack: Path, c: string): Path {
    if c == "" || c == "." then stack
    else if c == ".." && stack != [] && stack[|stack| - 1] != ".." then stack[..|stack| - 1]
    else stack + [c]
  }

  function PushAll(stack: Path, parts: Path): Path
    decreases |parts|
  {
    if parts == [] then stack else PushAll(Push(stack, parts[0]), parts[1..])
  }

  function Clean(name: string): string {
    var stack := PushAll([], Parts(name));
    if stack == [] then "." else FromParts(stack)
  }

  /** safeArchivePath */
  predicate SafeName(name: string) {
    && name != "" && '\\' !in name && (forall c :: c in name ==> !Control(c)) && name[0] != '/'
    && Clean(name) == name && name != "." && name != ".." && !("../" <= name)
  }

  predicate Confined(parts: Path) {
    forall i :: 0 <= i < |parts| ==> ValidComponent(parts[i])
  }

  /** The stack: some leading parent steps, then proper components. */
  ghost predicate Stacked(stack: Path) {
    exists k :: 0 <= k <= |stack| && StackedAt(stack, k)
  }

  ghost predicate StackedAt(stack: Path, k: nat) {
    && k <= |stack|
    && (forall i :: 0 <= i < k ==> stack[i] == "..")
    && (forall i :: k <= i < |stack| ==> ValidComponent(stack[i]))
  }

  lemma {:induction false} PushAllStacked(stack: Path, parts: Path)
    requires Stacked(stack) && Free('/', parts)
    ensures Stacked(PushAll(stack, parts))
    decreases |parts|
  {
    if parts != [] {
      var k :| 0 <= k <= |stack| && StackedAt(stack, k);
      var next := Push(stack, parts[0]);
      if next == stack + [parts[0]] && parts[0] == ".." {
        assert k == |stack|;
        assert StackedAt(next, k + 1);
      } else {
        assert StackedAt(next, k);
      }
      PushAllStacked(next, parts[1..]);
    }
  }

  lemma {:induction false} PushAllValid(stack: Path, parts: Path)
    requires Confined(parts)
    ensures PushAll(stack, parts) == stack + parts
    decreases |parts|
  {
    if parts == [] {
      assert stack + parts == stack;
    } else {
      PushAllValid(stack + [parts[0]], parts[1..]);
      assert stack + [parts[0]] + parts[1..] == stack + parts;
    }
  }

  /** A cleaned name is its own stack. */
  lemma CleanParts(name: string)
    requires Clean(name) == name && name != "."
    ensures PushAll([], Parts(name)) == Parts(name) && Stacked(Parts(name))
  {
    var stack := PushAll([], Parts(name));
    assert StackedAt([], 0);
    PushAllStacked([], Parts(name));
    assert Free('/', stack);
    SplitOnJoin('/', stack);
  }

  /** Whatever the name, cleaning leaves some leading parent steps and then proper components. */
  lemma StackOf(name: string)
    ensures Stacked(PushAll([], Parts(name)))
  {
    assert StackedAt([], 0);
    PushAllStacked([], Parts(name));
  }

  lemma {:induction false} PushAllParents(stack: Path, parts: Path)
    requires forall i :: 0 <= i < |stack| ==> stack[i] == ".."
    requires forall i :: 0 <= i < |parts| ==> parts[i] == ".."
    ensures PushAll(stack, parts) == stack + parts
    decreases |parts|
  {
    if parts == [] {
      assert stack + parts == stack;
    } else {
      PushAllParents(stack + [parts[0]], parts[1..]);
      assert stack + [parts[0]] + parts[1..] == stack + parts;
    }
  }

  lemma {:induction false} PushAllAppend(stack: Path, a: Path, b: Path)
    ensures PushAll(stack, a + b) == PushAll(PushAll(stack, a), b)
    decreases |a|
  {
    if a == [] {
      assert a + b == b;
    } else {
      assert (a + b)[1..] == a[1..] + b;
      PushAllAppend(Push(stack, a[0]), a[1..], b);
    }
  }

  lemma ParentsThenValid(up: Path, down: Path)
    requires (forall i :: 0 <= i < |up| ==> up[i] == "..") && Confined(down)
    ensures PushAll([], up + down) == up + down
  {
    PushAllParents([], up);
    PushAllValid(up, down);
    PushAllAppend([], up, down);
    assert [] + up == up;
  }

  lemma StackPushesItself(stack: Path)
    requires Stacked(stack)
    ensures PushAll([], stack) == stack
  {
    var k :| 0 <= k <= |stack| && StackedAt(stack, k);
    assert stack[..k] + stack[k..] == stack;
    ParentsThenValid(stack[..k], stack[k..]);
  }

  lemma StackFree(stack: Path)
    requires Stacked(stack)
    ensures Free('/', stack)
  {
    var k :| 0 <= k <= |stack| && StackedAt(stack, k);
  }

  /** The cleaned name, taken apart, is the stack it was made of; with no component left it is ".". */
  lemma CleanStack(name: string)
    ensures var stack := PushAll([], Parts(name));
      if stack == [] then Clean(name) == "."
        else Parts(Clean(name)) == stack && PushAll([], Parts(Clean(name))) == stack
  {
    var stack := PushAll([], Parts(name));
    StackOf(name);
    StackFree(stack);
    if stack != [] {
      SplitOnJoin('/', stack);
      StackPushesItself(stack);
    }
  }

  /** Cleaning is idempotent. */
  lemma CleanTwice(name: string)
    ensures Clean(Clean(name)) == Clean(name)
  {
    CleanStack(name);
    if PushAll([], Parts(name)) == [] {
      SplitOnOne('/', ".");
    }
  }

  /** A cleaned name stays inside its directory exactly when no parent step is left in front. */
  lemma CleanInside(name: string)
    ensures Clean(name) == "." || (Confined(Parts(Clean(name))) <==> Parts(Clean(name))[0] != "..")
  {
    CleanStack(name);
    StackOf(name);
  }

  lemma FirstPart(name: string)
    requires Parts(name)[0] == ".."
    ensures name == ".." || "../" <= name
  {
    var parts := Parts(name);
    JoinSplitOn('/', name);
    if |parts| > 1 {
      assert name == ".." + ['/'] + FromParts(parts[1..]);
      assert "../" == ".." + ['/'];
    }
  }

  lemma FirstSlash(name: string)
    requires name != ""
    ensures Parts(name)[0] == "" <==> name[0] == '/'
  {
  }

  /** The accepted names are exactly those whose every component is proper: nothing empty, "." or "..". */
  lemma SafeIff(name: string)
    ensures SafeName(name) <==>
      '\\' !in name && (forall c :: c in name ==> !Control(c)) && Confined(Parts(name))
  {
    var parts := Parts(name);
    if SafeName(name) {
      CleanParts(name);
      var k :| 0 <= k <= |parts| && StackedAt(parts, k);
      if k > 0 { FirstPart(name); }
      assert StackedAt(parts, 0);
    }
    if Confined(parts) {
      PushAllValid([], parts);
      assert [] + parts == parts;
      JoinSplitOn('/', name);
      assert ValidComponent(parts[0]);
      if name != "" { FirstSlash(name); }
      NotParent(name);
    }
  }

  lemma NotParent(name: string)
    requires ValidComponent(Parts(name)[0])
    ensures name != "" && name != "." && name != ".." && !("../" <= name)
  {
    SplitOnOne('/', ".");
    SplitOnOne('/', "..");
    if "../" <= name {
      assert name == ".." + ['/'] + name[3..];
      SplitOnFirst('/', "..", name[3..]);
    }
  }

  // ---- Where an entry goes

  const CONFIGS: string := "configs/"
  const SECRETS: string := "secrets/"

  const ALLOWED: seq<string> :=
    ["metadata.json", ".sdbx.yaml", ".sdbx.lock", "compose.yaml", ".env", "configs", "secrets"]

  predicate Listed(name: string, names: seq<string>) {
    names != [] && (name == names[0] || Listed(name, names[1..]))
  }

  /** allowedArchivePath */
  predicate AllowedName(name: string) {
    Listed(name, ALLOWED) || CONFIGS <= name || SECRETS <= name
  }

  /** A name a header may carry: safe, on the allowlist, and not one of the two directories themselves. */
  predicate AcceptedName(name: string) {
    SafeName(name) && AllowedName(name) && name != "configs" && name != "secrets"
  }

  /** destinationRecord: the root, the path below it, and whether the file is private. */
  function Destination(name: string): (Root, string, bool) {
    if CONFIGS <= name then (RestoreJournal.Config, name[|CONFIGS|..], false)
    else if SECRETS <= name then (RestoreJournal.Secrets, name[|SECRETS|..], true)
    else (RestoreJournal.Project, name, name == ".env")
  }

  lemma PrefixParts(directory: string, name: string)
    requires '/' !in directory && directory + ['/'] <= name
    ensures Parts(name) == [directory] + Parts(name[|directory| + 1..])
  {
    assert name == directory + ['/'] + name[|directory| + 1..];
    SplitOnFirst('/', directory, name[|directory| + 1..]);
  }

  /** Each accepted entry is restored to a clean, non-empty path below its root. */
  lemma DestinationClean(name: string)
    requires AcceptedName(name)
    ensures var (root, target, _) := Destination(name);
            target != "" && Confined(Parts(target)) && FromParts(Parts(target)) == target && Clean(target) == target
  {
    var (root, target, _) := Destination(name);
    SafeIff(name);
    if root.Config? {
      assert CONFIGS == "configs" + ['/'];
      PrefixParts("configs", name);
      assert Confined(Parts(target)) by { ConfinedTail(Parts(name)); }
    } else if root.Secrets? {
      assert SECRETS == "secrets" + ['/'];
      PrefixParts("secrets", name);
      assert Confined(Parts(target)) by { ConfinedTail(Parts(name)); }
    }
    JoinSplitOn('/', target);
    NotParent(target);
    PushAllValid([], Parts(target));
    assert [] + Parts(target) == Parts(target);
  }

  lemma ConfinedTail(parts: Path)
    requires Confined(parts) && parts != []
    ensures Confined(parts[1..])
  {
  }

  /** Different entries are restored to different places. */
  lemma DestinationInjective(a: string, b: string)
    requires Destination(a).0 == Destination(b).0 && Destination(a).1 == Destination(b).1
    ensures a == b
  {
    var (root, target, _) := Destination(a);
    if root.Config? {
      assert a == CONFIGS + target && b == CONFIGS + target;
    } else if root.Secrets? {
      assert a == SECRETS + target && b == SECRETS + target;
    }
  }
}
