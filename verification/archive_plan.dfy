/** From the files an archive stages to the plan a restore promotes. */
module ArchivePlan {
  import opened Common
  import opened Splitting
  import opened ArchivePaths
  import Archive
  import RestoreJournal
  import RestoreDisk
  import RestorePlan

  /** The plan: each staged file with its content, at the path its target names. */
  function PlanOf(files: seq<Archive.StagedFile>, contents: seq<string>): (plan: seq<RestorePlan.Staged>)
    requires |files| == |contents|
    ensures |plan| == |files|
    ensures forall i :: 0 <= i < |plan| ==> plan[i] == EntryOf(files[i], contents[i])
  {
    seq(|files|, i requires 0 <= i < |files| => EntryOf(files[i], contents[i]))
  }

  function EntryOf(f: Archive.StagedFile, content: string): RestorePlan.Staged {
    RestorePlan.Staged(f.root, Parts(f.target), RestoreDisk.File(content, f.mode))
  }

  lemma {:induction false} JoinConcat(a: Path, b: Path)
    requires a != [] && b != []
    ensures FromParts(a + b) == FromParts(a) + ['/'] + FromParts(b)
    decreases |a|
  {
    assert (a + b)[1..] == a[1..] + b;
    if |a| > 1 { JoinConcat(a[1..], b); }
  }

  lemma PartsConcat(a: string, b: string)
    ensures Parts(a + ['/'] + b) == Parts(a) + Parts(b)
  {
    JoinConcat(Parts(a), Parts(b));
    JoinSplitOn('/', a);
    JoinSplitOn('/', b);
    SplitOnJoin('/', Parts(a) + Parts(b));
  }

  /** One name is at or above another exactly when it is that name or ends at one of its slashes. */
  lemma AboveIff(a: string, b: string)
    ensures Parts(a) <= Parts(b) <==> a == b || a + "/" <= b
  {
    assert "/" == ['/'];
    JoinSplitOn('/', a);
    JoinSplitOn('/', b);
    if Parts(a) <= Parts(b) && Parts(a) != Parts(b) {
      var rest := Parts(b)[|Parts(a)|..];
      assert Parts(b) == Parts(a) + rest;
      JoinConcat(Parts(a), rest);
    }
    if a + "/" <= b {
      assert b == a + ['/'] + b[|a| + 1..];
      PartsConcat(a, b[|a| + 1..]);
    }
  }

  /** The one file's name is a directory of the other's. */
  predicate Below(f: Archive.StagedFile, g: Archive.StagedFile) {
    f.root == g.root && f.target + "/" <= g.target
  }

  /** Some staged file's name is a directory of another's. */
  predicate Nested(files: seq<Archive.StagedFile>) {
    exists i, j :: 0 <= i < |files| && 0 <= j < |files| && Below(files[i], files[j])
  }

  /** The plan of an accepted archive collides with itself exactly when one staged file lies below another. */
  lemma SeparatedIff(archive: seq<Archive.Entry>, s: Archive.Selection, contents: seq<string>)
    requires Archive.ArchiveAccepted(archive, true) && |contents| == |Archive.Staging(archive, s)|
    ensures RestorePlan.Separated(PlanOf(Archive.Staging(archive, s), contents))
      <==> !Nested(Archive.Staging(archive, s))
  {
    var files := Archive.Staging(archive, s);
    var plan := PlanOf(files, contents);
    Archive.StagedPlan(archive, s);
    forall i, j | 0 <= i < |files| && 0 <= j < |files| && i != j
      ensures RestorePlan.Apart(plan, i, j) <==> !Below(files[i], files[j])
    {
      AboveIff(files[i].target, files[j].target);
    }
    if !Nested(files) {
      forall i, j | 0 <= i < |plan| && 0 <= j < |plan| && i != j
        ensures RestorePlan.Apart(plan, i, j)
      {
        assert !Below(files[i], files[j]);
      }
    } else {
      var i, j :| 0 <= i < |files| && 0 <= j < |files| && Below(files[i], files[j]);
      assert !RestorePlan.Apart(plan, i, j);
    }
  }

  // ---- Archives of two configuration files

  /** Lower-case letters only. */
  predicate PlainPath(p: Path) {
    p != [] && forall i :: 0 <= i < |p| ==> p[i] != "" && forall k :: 0 <= k < |p[i]| ==> 'a' <= p[i][k] <= 'z'
  }

  function ConfigName(p: Path): string {
    CONFIGS + FromParts(p)
  }

  predicate PlainText(s: string) {
    forall k :: 0 <= k < |s| ==> 'a' <= s[k] <= 'z' || s[k] == '/'
  }

  lemma {:induction false} PlainJoin(p: Path)
    requires PlainPath(p)
    ensures PlainText(FromParts(p)) && FromParts(p) != ""
  {
    if |p| > 1 { PlainJoin(p[1..]); }
  }

  lemma ConfigParts(p: Path)
    requires PlainPath(p)
    ensures Parts(FromParts(p)) == p && Parts(ConfigName(p)) == ["configs"] + p
  {
    SplitOnJoin('/', p);
    assert CONFIGS == "configs" + ['/'];
    PrefixParts("configs", ConfigName(p));
    assert ConfigName(p)[8..] == FromParts(p);
  }

  lemma ConfigConfined(p: Path)
    requires PlainPath(p)
    ensures Confined(["configs"] + p)
  {
    forall i | 0 <= i < |p|
      ensures ValidComponent(p[i])
    {
      assert p[i][0] >= 'a';
    }
    assert ValidComponent("configs");
  }

  lemma ConfigChars(p: Path)
    requires PlainText(FromParts(p))
    ensures '\\' !in ConfigName(p) && forall c :: c in ConfigName(p) ==> !Control(c)
  {
  }

  lemma ConfigAccepted(p: Path)
    requires PlainPath(p)
    ensures AcceptedName(ConfigName(p)) && ConfigName(p) != Archive.METADATA
    ensures ByteLength(ConfigName(p)) == 8 + PathLength(p)
    ensures Destination(ConfigName(p)) == (RestoreJournal.Config, FromParts(p), false)
  {
    var name := ConfigName(p);
    ConfigParts(p);
    PlainJoin(p);
    ConfigConfined(p);
    ConfigChars(p);
    SafeIff(name);
    AsciiLength(CONFIGS);
    ByteLengthConcat(CONFIGS, FromParts(p));
    Archive.JoinLength(p);
    assert name[0] == 'c' && |name| > 8;
    assert name[8..] == FromParts(p);
  }

  /** metadata.json and two readable files below configs/. */
  function Pair(a: Path, b: Path): seq<Archive.Entry> {
    Archive.WrittenArchive(2, Sources(a, b))
  }

  function Sources(a: Path, b: Path): seq<Archive.Source> {
    [Archive.Source(ConfigName(a), 0x1A4, 1), Archive.Source(ConfigName(b), 0x1A4, 1)]
  }

  lemma {:induction false} SmallFits(name: string, size: int, limits: seq<Archive.Limit>)
    requires size <= Archive.MAX_METADATA_BYTES && forall i :: 0 <= i < |limits| ==> limits[i].bytes >= size
    ensures match Archive.LimitOf(name, limits) case Some(limit) => size <= limit case None => true
    decreases |limits|
  {
    if limits != [] { SmallFits(name, size, limits[1..]); }
  }

  lemma ConfigReserved(b: Archive.Budget, p: Path)
    requires PlainPath(p) && PathLength(p) <= 4088
    requires 0 <= b.entries < 1000 && 0 <= b.total < 1000 && 0 <= b.pathBytes <= 1_000_000
    ensures Archive.Reserve(b, ConfigName(p), 1)
      == Some(Archive.Budget(b.entries + 1, b.total + 1, b.pathBytes + 8 + PathLength(p)))
  {
    ConfigAccepted(p);
    SmallFits(ConfigName(p), 1, Archive.MANAGED);
  }

  lemma TwoReserved(b: Archive.Budget, b1: Archive.Budget, x: Archive.Item, y: Archive.Item)
    requires Archive.Reserve(b, x.name, x.size) == Some(b1) && Archive.Reserve(b1, y.name, y.size).Some?
    ensures Archive.ReserveItems(b, [x, y]).Some?
  {
    assert [x, y][1..] == [y] && [y][1..] == [];
    assert Archive.ReserveItems(b1, [y]).Some?;
  }

  function OfferedOf(p: Path): (item: Archive.Item)
    ensures item.name == ConfigName(p) && item.size == 1
  {
    Archive.Judged(Archive.EntryOf(Archive.Source(ConfigName(p), 0x1A4, 1)), false)
  }

  lemma OfferedPair(a: Path, b: Path)
    ensures Archive.Offered(Sources(a, b)) == [OfferedOf(a), OfferedOf(b)]
  {
  }

  lemma ReservedPair(a: Path, b: Path, x: Archive.Item, y: Archive.Item)
    requires PlainPath(a) && PlainPath(b) && PathLength(a) <= 4088 && PathLength(b) <= 4088
    requires x.name == ConfigName(a) && x.size == 1 && y.name == ConfigName(b) && y.size == 1
    ensures Archive.ReserveItems(Archive.Budget(1, 2, 13), [x, y]).Some?
  {
    var b0, b1 := Archive.Budget(1, 2, 13), Archive.Budget(2, 3, 13 + 8 + PathLength(a));
    ConfigReserved(b0, a);
    ConfigReserved(b1, b);
    TwoReserved(b0, b1, x, y);
  }

  lemma PairReserved(a: Path, b: Path)
    requires PlainPath(a) && PlainPath(b) && PathLength(a) <= 4088 && PathLength(b) <= 4088
    ensures Archive.ReserveItems(Archive.Budget(1, 2, 13), Archive.Offered(Sources(a, b))).Some?
  {
    OfferedPair(a, b);
    ReservedPair(a, b, OfferedOf(a), OfferedOf(b));
  }

  lemma PairFit(a: Path, b: Path)
    requires PlainPath(a) && PlainPath(b) && a != b
    ensures Archive.Fit(Sources(a, b))
  {
    ConfigAccepted(a);
    ConfigAccepted(b);
    ConfigNamesDiffer(a, b);
    TwoFit(Archive.Source(ConfigName(a), 0x1A4, 1), Archive.Source(ConfigName(b), 0x1A4, 1));
  }

  lemma TwoFit(x: Archive.Source, y: Archive.Source)
    requires AcceptedName(x.name) && AcceptedName(y.name) && x.name != y.name && x.mode == y.mode == 0x1A4
    requires x.name != Archive.METADATA && y.name != Archive.METADATA
    ensures Archive.Fit([x, y])
  {
    assert Archive.Bit(0x1A4, Archive.OWNER_READ);
  }

  lemma ConfigNamesDiffer(a: Path, b: Path)
    requires PlainPath(a) && PlainPath(b) && a != b
    ensures ConfigName(a) != ConfigName(b)
  {
    ConfigParts(a);
    ConfigParts(b);
    assert (["configs"] + a)[1..] == a && (["configs"] + b)[1..] == b;
  }

  /** Two different such files make an acceptable archive, and are staged in order. */
  lemma PairAccepted(a: Path, b: Path)
    requires PlainPath(a) && PlainPath(b) && a != b && PathLength(a) <= 4088 && PathLength(b) <= 4088
    ensures Archive.ArchiveAccepted(Pair(a, b), true)
    ensures Archive.Staging(Pair(a, b), Archive.Selection(false, {}))
      == [Archive.StagedFile(RestoreJournal.Config, FromParts(a), 0x1A4),
          Archive.StagedFile(RestoreJournal.Config, FromParts(b), 0x1A4)]
  {
    PairReserved(a, b);
    Archive.MetadataLength();
    ConfigAccepted(a);
    ConfigAccepted(b);
    PairFit(a, b);
    Archive.WriterReaderAgree(2, Sources(a, b));
    PairStaged(a, b);
  }

  lemma PairStaged(a: Path, b: Path)
    requires Destination(ConfigName(a)) == (RestoreJournal.Config, FromParts(a), false)
    requires ConfigName(a) != Archive.METADATA
    requires Destination(ConfigName(b)) == (RestoreJournal.Config, FromParts(b), false)
    requires ConfigName(b) != Archive.METADATA
    ensures Archive.Staging(Pair(a, b), Archive.Selection(false, {}))
      == [Archive.StagedFile(RestoreJournal.Config, FromParts(a), 0x1A4),
          Archive.StagedFile(RestoreJournal.Config, FromParts(b), 0x1A4)]
  {
    var pair, s := Pair(a, b), Archive.Selection(false, {});
    assert pair[..2][..1] == pair[..1] && pair[..1][..0] == [];
    assert Archive.Staging(pair[..1][..0], s) == [];
    assert Archive.Staging(pair[..1], s) == [];
    assert Archive.Masked(0x1A4) == 0x1A4;
    assert Archive.Staging(pair[..2], s) == [Archive.StagedFile(RestoreJournal.Config, FromParts(a), 0x1A4)];
  }

  lemma PairPlan(a: Path, b: Path, x: string, y: string)
    requires PlainPath(a) && PlainPath(b) && a != b && PathLength(a) <= 4088 && PathLength(b) <= 4088
    ensures var files := Archive.Staging(Pair(a, b), Archive.Selection(false, {}));
      |files| == 2 && PlanOf(files, [x, y]) == TwoConfigs(a, x, b, y)
  {
    PairAccepted(a, b);
    ConfigParts(a);
    ConfigParts(b);
    PlanOfTwo(Archive.StagedFile(RestoreJournal.Config, FromParts(a), 0x1A4), x,
              Archive.StagedFile(RestoreJournal.Config, FromParts(b), 0x1A4), y);
  }

  lemma PlanOfTwo(f: Archive.StagedFile, x: string, g: Archive.StagedFile, y: string)
    ensures PlanOf([f, g], [x, y]) == [EntryOf(f, x), EntryOf(g, y)]
  {
  }

  function TwoConfigs(a: Path, x: string, b: Path, y: string): seq<RestorePlan.Staged>
    requires a != [] && b != []
  {
    [RestorePlan.Staged(RestoreJournal.Config, a, RestoreDisk.File(x, 0x1A4)),
     RestorePlan.Staged(RestoreJournal.Config, b, RestoreDisk.File(y, 0x1A4))]
  }

  lemma NestedPair(f: Archive.StagedFile, g: Archive.StagedFile)
    requires f.root == g.root && f.target + "/" <= g.target
    ensures Nested([f, g])
  {
    assert [f, g][0].root == [f, g][1].root && [f, g][0].target + "/" <= [f, g][1].target;
  }

  lemma ShortPaths()
    ensures PlainPath(["a"]) && PlainPath(["a", "b"]) && PathLength(["a"]) == 1 && PathLength(["a", "b"]) == 3
    ensures FromParts(["a"]) + "/" <= FromParts(["a", "b"])
  {
    AsciiLength("a");
    AsciiLength("b");
    assert ["a", "b"][1..] == ["b"];
    assert FromParts(["a", "b"]) == "a" + ['/'] + "b";
  }

  /** An accepted archive whose plan can never be promoted: a file, and one below it. */
  lemma NestedAccepted(contents: seq<string>)
    requires |contents| == 2
    ensures var archive, s := Pair(["a"], ["a", "b"]), Archive.Selection(false, {});
      Archive.ArchiveAccepted(archive, true) && |Archive.Staging(archive, s)| == 2
      && !RestorePlan.Separated(PlanOf(Archive.Staging(archive, s), contents))
  {
    ShortPaths();
    PairAccepted(["a"], ["a", "b"]);
    NestedPair(Archive.StagedFile(RestoreJournal.Config, FromParts(["a"]), 0x1A4),
               Archive.StagedFile(RestoreJournal.Config, FromParts(["a", "b"]), 0x1A4));
    SeparatedIff(Pair(["a"], ["a", "b"]), Archive.Selection(false, {}), contents);
  }

  // ---- A backup the reader refuses

  /** One configuration file that its owner may write and not read. */
  function Unreadable(): (files: seq<Archive.Source>)
    ensures |files| == 1 && files[0] == Archive.Source(ConfigName(["a"]), 0x80, 1)
  {
    [Archive.Source(ConfigName(["a"]), 0x80, 1)]
  }

  lemma {:induction false} RefusedUnread(metadataSize: Archive.int64, files: seq<Archive.Source>)
    requires 0 <= metadataSize as int <= Archive.MAX_METADATA_BYTES
    requires Archive.ReserveItems(Archive.Budget(1, metadataSize as int, |Archive.METADATA|),
                                  Archive.Offered(files)).Some?
    requires exists i :: 0 <= i < |files| && !Archive.Bit(files[i].mode, Archive.OWNER_READ)
    ensures !Archive.ArchiveAccepted(Archive.WrittenArchive(metadataSize, files), true)
  {
    Archive.WriterReaderAgree(metadataSize, files);
  }

  lemma {:induction false} UnreadableMode(files: seq<Archive.Source>)
    requires |files| == 1 && files[0].mode == 0x80
    ensures exists i :: 0 <= i < |files| && !Archive.Bit(files[i].mode, Archive.OWNER_READ)
  {
    assert !Archive.Bit(files[0].mode, Archive.OWNER_READ);
  }

  /** It fits the budget, so a backup of it is written, and the reader does not accept that backup. */
  lemma UnreadableRefused()
    ensures Archive.ReserveItems(Archive.Budget(1, 2, |Archive.METADATA|), Archive.Offered(Unreadable())).Some?
    ensures !Archive.ArchiveAccepted(Archive.WrittenArchive(2, Unreadable()), true)
  {
    Archive.MetadataLength();
    OneReserved(Archive.Offered(Unreadable()));
    UnreadableMode(Unreadable());
    RefusedUnread(2, Unreadable());
  }

  lemma {:induction false} OneReserved(items: seq<Archive.Item>)
    requires |items| == 1 && items[0].name == ConfigName(["a"]) && items[0].size == 1
    ensures Archive.ReserveItems(Archive.Budget(1, 2, 13), items).Some?
  {
    PlainA();
    ConfigReserved(Archive.Budget(1, 2, 13), ["a"]);
    assert items[1..] == [];
  }

  lemma PlainA()
    ensures PlainPath(["a"]) && PathLength(["a"]) == 1
  {
    AsciiLength("a");
  }
}
