/** The two-file credential protocol of the qBittorrent integration: provisioning, rotation and recovery. */
module Qbittorrent {
  import opened Common
  import opened Lines
  import opened Names
  import opened IniSections
  import opened IniLaws
  import opened IniShadow
  import opened QbtSettings

  // ---- Text

  /** Editing several sections, in the order given; an unusable section name refuses the edit. */
  ghost function UpdateAll(contents: string, names: seq<string>, sections: map<string, Settings>): Option<string>
    requires forall n :: n in names ==> n in sections
    decreases |names|
  {
    if names == [] then Some(contents)
    else if !ValidSection(names[0]) then None
    else UpdateAll(Update(contents, names[0], sections[names[0]]), names[1..], sections)
  }

  /** updateQBTConfSections, between reading the file and writing it back. */
  method UpdateConfSections(contents: string, sections: map<string, Settings>) returns (out: Option<string>)
    ensures out == UpdateAll(contents, InOrder(sections.Keys), sections)
  {
    var names := SortedSet(sections.Keys);
    var text := contents;
    assert names[0..] == names;
    for i := 0 to |names|
      invariant UpdateAll(contents, names, sections) == UpdateAll(text, names[i..], sections)
    {
      assert names[i..][1..] == names[i + 1..];
      if !ValidSection(names[i]) { return None; }
      text := UpdateINISection(text, names[i], sections[names[i]]);
    }
    out := Some(text);
  }

  ghost function Persisted(conf: string): string {
    match Lookup(conf, "Preferences", PASSWORD) case Some(v) => v case None => ""
  }

  /** A password hash set under an earlier duplicate header: the reader uses it, no edit reaches it. */
  function Hidden(conf: string): Option<string> {
    EarlierValue(conf, "Preferences", PASSWORD)
  }

  /** The edit of a run: the port, then the security preferences. */
  ghost function FullEdit(conf: string, host: string, port: nat, hash: string): string {
    UndoEdit(Update(conf, "BitTorrent", PortSettings(port)), host, hash)
  }

  /** The edit that puts a hash back. */
  ghost function UndoEdit(conf: string, host: string, hash: string): string {
    Update(conf, "Preferences", SecurityPreferences(host, hash))
  }

  predicate ManagedKey(section: string, key: string) {
    (section == "Preferences" && key in SecurityPreferences("", "")) || (section == "BitTorrent" && key == PORT)
  }

  /** Every setting the integration does not own reads the same. */
  ghost predicate SameElsewhere(a: string, b: string) {
    forall section, key :: !ManagedKey(section, key) ==> Lookup(b, section, key) == Lookup(a, section, key)
  }

  lemma PasswordKept(host: string, hash: string)
    ensures PASSWORD in SecurityPreferences(host, hash) && SecurityPreferences(host, hash)[PASSWORD] == hash
    ensures SecurityPreferences(host, hash).Keys == SecurityPreferences("", "").Keys
  {
  }

  ghost predicate AllManaged(section: string, want: Settings) {
    forall k :: k in want ==> ManagedKey(section, k)
  }

  lemma PreferencesManaged(host: string, hash: string)
    ensures AllManaged("Preferences", SecurityPreferences(host, hash))
  {
    PasswordKept(host, hash);
    forall k | k in SecurityPreferences(host, hash)
      ensures ManagedKey("Preferences", k)
    {
      assert k in SecurityPreferences(host, hash).Keys;
    }
  }

  lemma EditOther(conf: string, section: string, want: Settings)
    requires ValidSection(section) && WellFormed(want) && AllManaged(section, want)
    ensures SameElsewhere(conf, Update(conf, section, want))
  {
    forall other, key | !ManagedKey(other, key)
      ensures Lookup(Update(conf, section, want), other, key) == Lookup(conf, other, key)
    {
      OthersUnchanged(conf, section, want, other, key);
    }
  }

  lemma EditPassword(conf: string, want: Settings)
    requires WellFormed(want) && PASSWORD in want
    ensures Hidden(Update(conf, "Preferences", want)) == Hidden(conf)
    ensures Persisted(Update(conf, "Preferences", want))
         == if Hidden(conf).Some? then Hidden(conf).value else want[PASSWORD]
  {
    ReadBack(conf, "Preferences", want, PASSWORD);
    EarlierAfterSame(conf, "Preferences", want, PASSWORD);
  }

  lemma SectionNames()
    ensures ValidSection("BitTorrent") && ValidSection("Preferences")
  {
  }

  /** Settings that put a hash in place and own everything they touch. */
  ghost predicate Carries(want: Settings, hash: string) {
    WellFormed(want) && AllManaged("Preferences", want) && PASSWORD in want && want[PASSWORD] == hash
  }

  lemma PreferencesCarry(host: string, hash: string)
    requires PlainValue(hash)
    ensures Carries(SecurityPreferences(host, hash), hash)
  {
    PreferencesWellFormed(host, hash);
    PasswordKept(host, hash);
    PreferencesManaged(host, hash);
  }

  /** The file reads the new hash, unless an earlier section hides it, and the same in everything else. */
  ghost predicate Installs(conf: string, edited: string, hash: string) {
    && Hidden(edited) == Hidden(conf)
    && Persisted(edited) == (if Hidden(conf).Some? then Hidden(conf).value else hash)
    && SameElsewhere(conf, edited)
  }

  lemma CarriedInstalls(conf: string, want: Settings, hash: string)
    requires Carries(want, hash)
    ensures Installs(conf, Update(conf, "Preferences", want), hash)
  {
    SectionNames();
    EditPassword(conf, want);
    EditOther(conf, "Preferences", want);
  }

  lemma UndoInstalls(conf: string, host: string, hash: string)
    requires PlainValue(hash)
    ensures Installs(conf, UndoEdit(conf, host, hash), hash)
  {
    PreferencesCarry(host, hash);
    CarriedInstalls(conf, SecurityPreferences(host, hash), hash);
  }

  lemma PortEditMeaning(conf: string, port: nat)
    ensures var edited := Update(conf, "BitTorrent", PortSettings(port));
            Hidden(edited) == Hidden(conf) && SameElsewhere(conf, edited)
  {
    var want := PortSettings(port);
    SectionNames();
    PortWellFormed(port);
    EarlierAfterOther(conf, "BitTorrent", want, "Preferences", PASSWORD);
    EditOther(conf, "BitTorrent", want);
  }

  /** So does the edit of a run. */
  lemma FullInstalls(conf: string, host: string, port: nat, hash: string)
    requires PlainValue(hash)
    ensures Installs(conf, FullEdit(conf, host, port, hash), hash)
  {
    PortEditMeaning(conf, port);
    UndoInstalls(Update(conf, "BitTorrent", PortSettings(port)), host, hash);
  }

  /** Two edits of different sections: keys of both read back unless an earlier section hides them. */
  lemma TwoEditsRead(conf: string, first: string, a: Settings, second: string, b: Settings, key: string)
    requires ValidSection(first) && ValidSection(second) && first != second && WellFormed(a) && WellFormed(b)
    ensures var edited := Update(Update(conf, first, a), second, b);
            && (key in a && EarlierValue(conf, first, key).None? ==> Lookup(edited, first, key) == Some(a[key]))
            && (key in b && EarlierValue(conf, second, key).None? ==> Lookup(edited, second, key) == Some(b[key]))
  {
    var once := Update(conf, first, a);
    if key in a {
      ReadBack(conf, first, a, key);
      OthersUnchanged(once, second, b, first, key);
    }
    if key in b {
      EarlierAfterOther(conf, first, a, second, key);
      ReadBack(once, second, b, key);
    }
  }

  /** After a run's edit the port and every security preference read as wanted, unless hidden. */
  lemma FullEditReads(conf: string, host: string, port: nat, hash: string, key: string)
    requires PlainValue(hash)
    ensures EarlierValue(conf, "BitTorrent", PORT).None? ==>
      Lookup(FullEdit(conf, host, port, hash), "BitTorrent", PORT) == Some(Digits(port))
    ensures key in SecurityPreferences(host, hash) && EarlierValue(conf, "Preferences", key).None? ==>
      Lookup(FullEdit(conf, host, port, hash), "Preferences", key) == Some(SecurityPreferences(host, hash)[key])
  {
    SectionNames();
    PortWellFormed(port);
    PreferencesWellFormed(host, hash);
    TwoEditsRead(conf, "BitTorrent", PortSettings(port), "Preferences", SecurityPreferences(host, hash), PORT);
    TwoEditsRead(conf, "BitTorrent", PortSettings(port), "Preferences", SecurityPreferences(host, hash), key);
  }

  lemma SectionOrder()
    ensures InOrder({"BitTorrent", "Preferences"}) == ["BitTorrent", "Preferences"]
    ensures InOrder({"Preferences"}) == ["Preferences"]
  {
    assert Less("BitTorrent", "Preferences");
    OrderUnique(["BitTorrent", "Preferences"], {"BitTorrent", "Preferences"});
    OrderUnique(["Preferences"], {"Preferences"});
  }

  // ---- The protocol

  /** The calls of one run that can fail, in order. */
  datatype Call =
    | ReadStamp | Match | MarkPending | ReadSecret | ReadConf | Generate | CreateSecret | Salt | Stop
    | EditRead | WriteConf | WriteCredential | UndoRead | UndoConf | UndoCredential | Start | WriteStamp

  /** One run: its configuration, the random values drawn, and what happens to each call. */
  datatype Request = Request(
    enabled: bool, host: string, port: nat, generated: string, salt: Bytes, fate: Call -> Fault)

  /** Random passwords are not empty and have no space around them, salts have their length. */
  predicate Drawn(r: Request) {
    r.generated != "" && Trimmed(r.generated) && |r.salt| == SALT_LENGTH
  }

  /** The alphabet of base64.URLEncoding without its padding: what both generators draw passwords in. */
  predicate UrlSafe(s: string) {
    forall c :: c in s ==> ('A' <= c <= 'Z') || ('a' <= c <= 'z') || ('0' <= c <= '9') || c == '-' || c == '_'
  }

  /** Every password the generators can draw, with '-' and '_' too, is one the results below speak about. */
  lemma UrlSafeDrawn(r: Request)
    requires UrlSafe(r.generated) && |r.generated| > 0 && |r.salt| == SALT_LENGTH
    ensures Drawn(r)
  {
    var g := r.generated;
    assert g[0] in g && g[|g| - 1] in g;
  }

  datatype Outcome = Stamped | Rotated | AlreadyInit | NotEnabled | NoConf | Error | Stopped
  {
    predicate Succeeds() {
      Stamped? || Rotated? || AlreadyInit?
    }
  }

  function Broken(f: Fault): Outcome
    requires !f.Run?
  {
    if f.Crash? then Stopped else Error
  }

  /** A file after an atomic replacement meets its fate. */
  function Replaced(f: Fault, before: Option<string>, text: string): Option<string> {
    if f.Run? || f.Landed? then Some(text) else before
  }

  /** ReadSecret: the trimmed text, unless that is empty. */
  function Secret(file: Option<string>): Option<string> {
    if file.None? || TrimSpace(file.value) == "" then None else Some(TrimSpace(file.value))
  }

  const VERSION: string := "5"

  /** qbtManagedCredentialMatches */
  ghost predicate Agree(h: Hashing, conf: Option<string>, credential: Option<string>) {
    conf.Some? && Secret(credential).Some? && PasswordMatches(h, Secret(credential).value, Persisted(conf.value))
  }

  lemma DrawnSecret(r: Request)
    requires Drawn(r)
    ensures Secret(Some(r.generated)) == Some(r.generated) && Secret(Some(r.generated + "\n")) == Some(r.generated)
  {
    TrimTrimmed(r.generated);
    TrimAfter(r.generated, '\n');
  }

  lemma SecretAgain(file: Option<string>)
    requires Secret(file).Some?
    ensures Secret(Some(Secret(file).value)) == Secret(file)
  {
    TrimSpaceTrims(file.value);
    TrimTrimmed(TrimSpace(file.value));
  }

  lemma {:induction false} FoundPlain(header: string, key: string, st: Scan, lines: seq<string>)
    requires AllOneLine(lines) && (st.Found? ==> PlainValue(st.value))
    ensures ScanLines(header, key, st, lines).Found? ==> PlainValue(ScanLines(header, key, st, lines).value)
    decreases |lines|
  {
    if lines != [] {
      if HasEquals(lines[0]) { TrimSpaceTrims(lines[0][CutAt(lines[0]) + 1..]); }
      FoundPlain(header, key, ScanLine(header, key, st, lines[0]), lines[1..]);
    }
  }

  lemma PersistedPlain(conf: string)
    ensures PlainValue(Persisted(conf))
  {
    FoundPlain(Header("Preferences"), PASSWORD, Searching(false), Split(conf));
  }

  lemma FullSections(conf: string, sections: map<string, Settings>, host: string, port: nat, hash: string)
    requires sections == map["BitTorrent" := PortSettings(port), "Preferences" := SecurityPreferences(host, hash)]
    ensures UpdateAll(conf, InOrder(sections.Keys), sections) == Some(FullEdit(conf, host, port, hash))
  {
    var names := InOrder(sections.Keys);
    assert sections.Keys == {"BitTorrent", "Preferences"};
    SectionOrder();
    SectionNames();
    assert names[1..] == ["Preferences"] && names[1..][1..] == [];
    var first := Update(conf, "BitTorrent", PortSettings(port));
    assert UpdateAll(first, ["Preferences"], sections) == UpdateAll(UndoEdit(first, host, hash), [], sections);
  }

  lemma UndoSection(conf: string, sections: map<string, Settings>, host: string, hash: string)
    requires sections == map["Preferences" := SecurityPreferences(host, hash)]
    ensures UpdateAll(conf, InOrder(sections.Keys), sections) == Some(UndoEdit(conf, host, hash))
  {
    var names := InOrder(sections.Keys);
    assert sections.Keys == {"Preferences"};
    SectionOrder();
    SectionNames();
    assert names[1..] == [];
  }

  /** A failed write of either file leaves it as it was. */
  predicate WritesWhole(r: Request) {
    !r.fate(WriteConf).Landed? && !r.fate(WriteCredential).Landed?
  }

  /** A failed last step, writing the stamp, leaves the new files; they agree when nothing hides the hash. */
  predicate StampHarmless(r: Request, before: string) {
    r.fate(WriteStamp).Run? || Hidden(before).None?
  }

  predicate UndoSucceeds(r: Request) {
    r.fate(UndoRead).Run? && r.fate(UndoConf).Run? && r.fate(UndoCredential).Run?
  }

  /** The shortcut of a provisioning run can be taken. */
  predicate ChecksStamp(r: Request) {
    r.fate(ReadStamp).Run? && r.fate(Match).Run?
  }

  /** What lets a failing rotation leave agreeing files. */
  predicate TakesBack(r: Request, before: string) {
    WritesWhole(r) && UndoSucceeds(r) && StampHarmless(r, before)
  }

  /** Whatever a run does, it hides and uncovers no hash and leaves every other setting as it reads. */
  ghost predicate Steady(before: Option<string>, after: Option<string>) {
    && before.Some? == after.Some?
    && (before.Some? ==> Hidden(after.value) == Hidden(before.value) && SameElsewhere(before.value, after.value))
  }

  lemma InstallsTwice(a: string, b: string, c: string, first: string, second: string)
    requires Installs(a, b, first) && Installs(b, c, second)
    ensures Installs(a, c, second)
  {
  }

  /** Hash in the settings file, password in the credential file: they agree unless something hides the hash. */
  ghost predicate Settled(h: Hashing, conf: Option<string>, credential: Option<string>) {
    && conf.Some? && Secret(credential).Some?
    && (Agree(h, conf, credential)
      <==> Hidden(conf.value).None? || PasswordMatches(h, Secret(credential).value, Hidden(conf.value).value))
  }

  lemma InstalledSettles(h: Hashing, before: string, conf: string, credential: Option<string>, password: string,
      hash: string)
    requires Installs(before, conf, hash) && Secret(credential) == Some(password) && PasswordMatches(h, password, hash)
    ensures Settled(h, Some(conf), credential)
  {
  }

  /** Settled files agree when nothing was hidden before. */
  lemma SettledAgrees(h: Hashing, before: string, conf: Option<string>, credential: Option<string>)
    requires Settled(h, conf, credential) && Steady(Some(before), conf)
    ensures Hidden(before).None? ==> Agree(h, conf, credential)
  {
  }

  /** A hidden hash is the one the reader uses. */
  lemma HiddenRead(conf: string)
    requires Hidden(conf).Some?
    ensures Persisted(conf) == Hidden(conf).value
  {
    EarlierRead(conf, "Preferences", PASSWORD);
  }

  /** Putting the previous hash back makes the previous secret, kept or put back, agree again. */
  lemma UndoneAgrees(h: Hashing, before: string, undone: string, credential: Option<string>, previous: string,
      hash: string)
    requires Installs(before, undone, hash) && (Hidden(before).None? || Hidden(before) == Some(hash))
    requires Secret(credential) == Some(previous) && PasswordMatches(h, previous, hash)
    ensures Agree(h, Some(undone), credential) && Agree(h, Some(undone), Some(previous))
  {
    SecretAgain(credential);
  }

  /** From here a rotation, or a provisioning when rotate is false, can be taken back without losing agreement. */
  ghost predicate Undoable(h: Hashing, before: string, conf: Option<string>, undone: string, kept: Option<string>) {
    && Steady(Some(before), conf) && Steady(Some(before), Some(undone))
    && Agree(h, Some(undone), kept)
  }

  lemma RotationUndoable(h: Hashing, before: string, edited: string, hash: string, host: string,
      credential: Option<string>,
      previous: string, previousHash: string)
    requires Installs(before, edited, hash) && PlainValue(previousHash)
    requires Secret(credential) == Some(previous) && PasswordMatches(h, previous, previousHash)
    requires previousHash == Persisted(before)
    ensures var undone := UndoEdit(edited, host, previousHash);
            Undoable(h, before, Some(edited), undone, credential)
            && Undoable(h, before, Some(edited), undone, Some(previous))
  {
    var undone := UndoEdit(edited, host, previousHash);
    UndoInstalls(edited, host, previousHash);
    InstallsTwice(before, edited, undone, hash, previousHash);
    if Hidden(before).Some? { HiddenRead(before); }
    UndoneAgrees(h, before, undone, credential, previous, previousHash);
  }

  lemma SteadyTwice(a: Option<string>, b: Option<string>, c: Option<string>)
    requires Steady(a, b) && Steady(b, c)
    ensures Steady(a, c)
  {
  }

  /** The secret a provisioning run leaves, and its file. */
  function ProvisionedSecret(r: Request, before: Option<string>): string {
    if Secret(before).Some? then Secret(before).value else r.generated
  }

  function ProvisionedFile(r: Request, before: Option<string>): Option<string> {
    if Secret(before).Some? then before else Some(r.generated + "\n")
  }

  class Deployment {
    const hashing: Hashing
    var conf: Option<string>
    var credential: Option<string>
    var stamp: Option<string>

    constructor (hashing: Hashing, conf: Option<string>, credential: Option<string>, stamp: Option<string>)
      ensures this.hashing == hashing && this.conf == conf && this.credential == credential && this.stamp == stamp
    {
      this.hashing, this.conf, this.credential, this.stamp := hashing, conf, credential, stamp;
    }

    ghost predicate Agreed()
      reads this
    {
      Agree(hashing, conf, credential)
    }

    method Matches() returns (matches: bool)
      ensures matches <==> Agreed()
    {
      var secret := Secret(credential);
      if conf.None? || secret.None? { return false; }
      var hash := QbtPreferenceValue(conf.value, PASSWORD);
      matches := PasswordMatches(hashing, secret.value, hash);
    }

    /** readOrCreateSecret: an existing secret is kept. */
    method ReadOrCreateSecret(r: Request) returns (outcome: Option<Outcome>, password: string)
      requires Drawn(r)
      modifies this`credential
      ensures Secret(old(credential)).Some? ==> credential == old(credential)
      ensures outcome.None? ==> credential == ProvisionedFile(r, old(credential))
      ensures outcome.None? ==>
        Secret(credential) == Some(password) && password == ProvisionedSecret(r, old(credential))
      ensures outcome.Some? ==> outcome.value.Error? || outcome.value.Stopped?
    {
      password := "";
      if credential.Some? {
        if !r.fate(ReadSecret).Run? { return Some(Broken(r.fate(ReadSecret))), ""; }
        var secret := Secret(credential);
        if secret.Some? { return None, secret.value; }
      }
      if !r.fate(Generate).Run? { return Some(Broken(r.fate(Generate))), ""; }
      DrawnSecret(r);
      credential := Replaced(r.fate(CreateSecret), credential, r.generated + "\n");
      if !r.fate(CreateSecret).Run? { return Some(Broken(r.fate(CreateSecret))), ""; }
      return None, r.generated;
    }

    /** The checks a rotation makes before it changes anything. */
    method BeginRotation(r: Request) returns (outcome: Option<Outcome>, previous: string, previousHash: string)
      requires conf.Some?
      ensures outcome.Some? ==> outcome.value.Error? || outcome.value.Stopped?
      ensures outcome.None? ==>
        Agreed() && Secret(credential) == Some(previous) && previousHash == Persisted(conf.value)
      ensures !Agreed() ==> outcome.Some?
    {
      previous, previousHash := "", "";
      if !r.fate(ReadSecret).Run? { return Some(Broken(r.fate(ReadSecret))), "", ""; }
      var secret := Secret(credential);
      if secret.None? { return Some(Error), "", ""; }
      if !r.fate(ReadConf).Run? { return Some(Broken(r.fate(ReadConf))), "", ""; }
      previousHash := QbtPreferenceValue(conf.value, PASSWORD);
      if !PasswordMatches(hashing, secret.value, previousHash) { return Some(Error), "", ""; }
      if !r.fate(Generate).Run? { return Some(Broken(r.fate(Generate))), "", ""; }
      return None, secret.value, previousHash;
    }

    /** Edits the settings file with the port and the preferences. */
    method WriteSections(r: Request, hash: string) returns (outcome: Option<Outcome>)
      requires conf.Some? && PlainValue(hash)
      modifies this`conf
      ensures conf == old(conf) || (conf.Some? && Installs(old(conf).value, conf.value, hash))
      ensures outcome.None? ==> conf.Some? && Installs(old(conf).value, conf.value, hash)
      ensures outcome.None? ==> conf == Some(FullEdit(old(conf).value, r.host, r.port, hash))
      ensures outcome.Some? ==> outcome.value.Error? || outcome.value.Stopped?
      ensures outcome.Some? && !r.fate(WriteConf).Landed? ==> conf == old(conf)
    {
      if !r.fate(EditRead).Run? { return Some(Broken(r.fate(EditRead))); }
      var sections := map["BitTorrent" := PortSettings(r.port), "Preferences" := SecurityPreferences(r.host, hash)];
      var out := UpdateConfSections(conf.value, sections);
      FullSections(conf.value, sections, r.host, r.port, hash);
      FullInstalls(conf.value, r.host, r.port, hash);
      conf := Replaced(r.fate(WriteConf), conf, out.value);
      outcome := if r.fate(WriteConf).Run? then None else Some(Broken(r.fate(WriteConf)));
    }

    /** Puts the previous hash back; a failure is only reported. */
    method UndoSections(r: Request, hash: string) returns (outcome: Outcome)
      requires conf.Some?
      modifies this`conf
      ensures outcome.Error? || outcome.Stopped?
      ensures r.fate(UndoRead).Run? && r.fate(UndoConf).Run? ==> conf == Some(UndoEdit(old(conf).value, r.host, hash))
      ensures conf == old(conf) || conf == Some(UndoEdit(old(conf).value, r.host, hash))
    {
      if !r.fate(UndoRead).Run? { return Broken(r.fate(UndoRead)); }
      var sections := map["Preferences" := SecurityPreferences(r.host, hash)];
      var out := UpdateConfSections(conf.value, sections);
      UndoSection(conf.value, sections, r.host, hash);
      conf := Replaced(r.fate(UndoConf), conf, out.value);
      outcome := if r.fate(UndoConf).Crash? then Stopped else Error;
    }

    /** Takes a rotation back after its restart failed: both files. */
    method UndoRotation(r: Request, previous: string, previousHash: string) returns (outcome: Outcome)
      requires conf.Some?
      modifies this`conf, this`credential
      ensures outcome.Error? || outcome.Stopped?
      ensures conf == old(conf) || conf == Some(UndoEdit(old(conf).value, r.host, previousHash))
      ensures outcome == Error && UndoSucceeds(r) ==>
        conf == Some(UndoEdit(old(conf).value, r.host, previousHash)) && credential == Some(previous)
    {
      outcome := UndoSections(r, previousHash);
      if outcome == Stopped { return; }
      credential := Replaced(r.fate(UndoCredential), credential, previous);
      if r.fate(UndoCredential).Crash? { return Stopped; }
    }

    /** Stores the rotated credential, or puts the settings file back. */
    method StoreCredential(r: Request, previousHash: string, ghost before: string) returns (outcome: Option<Outcome>)
      requires conf.Some? && Undoable(hashing, before, conf, UndoEdit(conf.value, r.host, previousHash), credential)
      modifies this`conf, this`credential
      ensures outcome.Some? ==> outcome.value.Error? || outcome.value.Stopped?
      ensures Steady(Some(before), conf)
      ensures outcome.None? ==> conf == old(conf) && credential == Some(r.generated)
      ensures outcome == Some(Error) && WritesWhole(r) && UndoSucceeds(r) ==> Agreed()
    {
      credential := Replaced(r.fate(WriteCredential), credential, r.generated);
      if r.fate(WriteCredential).Run? { return None; }
      if r.fate(WriteCredential).Crash? { return Some(Stopped); }
      var undone := UndoSections(r, previousHash);
      outcome := Some(undone);
    }

    /** The restart and the stamp. */
    method Finish(r: Request, rotate: bool, previous: string, previousHash: string, ghost before: string)
      returns (outcome: Outcome)
      requires conf.Some? && Steady(Some(before), conf)
      requires rotate ==> Undoable(hashing, before, conf, UndoEdit(conf.value, r.host, previousHash), Some(previous))
      modifies this
      ensures outcome.Error? || outcome.Stopped? || outcome == if rotate then Rotated else Stamped
      ensures Steady(Some(before), conf)
      ensures !rotate ==> conf == old(conf) && credential == old(credential)
      ensures outcome.Stamped? || outcome.Rotated? ==>
        conf == old(conf) && credential == old(credential) && stamp == Some(VERSION + "\n")
      ensures rotate && outcome == Error && UndoSucceeds(r) && (r.fate(WriteStamp).Run? || old(Agreed())) ==> Agreed()
    {
      if !r.fate(Start).Run? {
        if rotate && !r.fate(Start).Crash? {
          outcome := UndoRotation(r, previous, previousHash);
          return;
        }
        return Broken(r.fate(Start));
      }
      stamp := Replaced(r.fate(WriteStamp), stamp, VERSION + "\n");
      if !r.fate(WriteStamp).Run? { return Broken(r.fate(WriteStamp)); }
      outcome := if rotate then Rotated else Stamped;
    }

    /** The settings file, then for a rotation the credential file. */
    method WriteFiles(r: Request, rotate: bool, previous: string, previousHash: string, password: string)
      returns (outcome: Option<Outcome>)
      requires Sound(hashing) && Drawn(r) && conf.Some? && PlainValue(previousHash)
      requires rotate ==> Rotating(previous, previousHash) && password == r.generated
      requires !rotate ==> Secret(credential) == Some(password)
      modifies this`conf, this`credential
      ensures outcome.Some? ==> outcome.value.Error? || outcome.value.Stopped?
      ensures Steady(old(conf), conf)
      ensures !rotate ==> credential == old(credential)
      ensures outcome.None? ==> FilesInstalled(r, old(conf), password)
      ensures outcome.None? && rotate ==> credential == Some(r.generated)
      ensures outcome.None? && rotate ==>
        Undoable(hashing, old(conf).value, conf, UndoEdit(conf.value, r.host, previousHash), Some(previous))
      ensures rotate && outcome == Some(Error) && WritesWhole(r) && UndoSucceeds(r) ==> Agreed()
    {
      var hash := HashText(hashing, password, r.salt);
      ghost var before := conf.value;
      HashMatches(hashing, password, r.salt);
      HashOnLine(hashing, password, r.salt);
      outcome := WriteSections(r, hash);
      if outcome.Some? { return; }
      if rotate {
        RotationUndoable(hashing, before, conf.value, hash, r.host, credential, previous, previousHash);
        DrawnSecret(r);
        outcome := StoreCredential(r, previousHash, before);
        if outcome.Some? { return; }
      }
      InstalledSettles(hashing, before, conf.value, credential, password, hash);
    }

    /** Both files, then the restart and the stamp. */
    method InstallFiles(r: Request, rotate: bool, previous: string, previousHash: string, password: string)
      returns (outcome: Outcome)
      requires Sound(hashing) && Drawn(r) && conf.Some? && PlainValue(previousHash)
      requires rotate ==> Rotating(previous, previousHash) && password == r.generated
      requires !rotate ==> Secret(credential) == Some(password)
      modifies this
      ensures outcome.Error? || outcome.Stopped? || outcome == if rotate then Rotated else Stamped
      ensures Steady(old(conf), conf)
      ensures !rotate ==> credential == old(credential)
      ensures outcome.Stamped? || outcome.Rotated? ==> Installed(r, old(conf), password)
      ensures outcome == Rotated ==> credential == Some(r.generated)
      ensures rotate && outcome == Error && TakesBack(r, old(conf).value) ==> Agreed()
    {
      ghost var before := conf.value;
      var broken := WriteFiles(r, rotate, previous, previousHash, password);
      if broken.Some? { return broken.value; }
      SettledAgrees(hashing, before, conf, credential);
      outcome := Finish(r, rotate, previous, previousHash, before);
    }

    /** The common part of provisioning and rotation: the container is stopped, then the files. */
    method Install(r: Request, rotate: bool, previous: string, previousHash: string, password: string)
      returns (outcome: Outcome)
      requires Sound(hashing) && Drawn(r) && conf.Some? && PlainValue(previousHash)
      requires rotate ==> Rotating(previous, previousHash) && password == r.generated
      requires !rotate ==> Secret(credential) == Some(password)
      modifies this
      ensures outcome.Error? || outcome.Stopped? || outcome == if rotate then Rotated else Stamped
      ensures Steady(old(conf), conf)
      ensures !rotate ==> credential == old(credential)
      ensures outcome.Stamped? || outcome.Rotated? ==> Installed(r, old(conf), password)
      ensures outcome == Rotated ==> credential == Some(r.generated)
      ensures rotate && outcome == Error && TakesBack(r, old(conf).value) ==> Agreed()
    {
      if !r.fate(Salt).Run? { return Broken(r.fate(Salt)); }
      if !r.fate(Stop).Run? { return Broken(r.fate(Stop)); }
      outcome := InstallFiles(r, rotate, previous, previousHash, password);
    }

    /** The settings edited for the password, and the password stored. */
    ghost predicate FilesInstalled(r: Request, before: Option<string>, password: string)
      reads this
    {
      && before.Some? && conf == Some(FullEdit(before.value, r.host, r.port, HashText(hashing, password, r.salt)))
      && Secret(credential) == Some(password) && Settled(hashing, conf, credential)
    }

    /** The files a successful run leaves. */
    ghost predicate Installed(r: Request, before: Option<string>, password: string)
      reads this
    {
      FilesInstalled(r, before, password) && stamp == Some(VERSION + "\n")
    }

    ghost predicate Rotating(previous: string, previousHash: string)
      reads this
      requires conf.Some?
    {
      && Secret(credential) == Some(previous) && previousHash == Persisted(conf.value)
      && PasswordMatches(hashing, previous, previousHash)
    }

    ghost predicate StampMatches()
      reads this
    {
      stamp.Some? && TrimSpace(stamp.value) == VERSION
    }

    /** The shortcut of a provisioning run: done already, or marked for recovery. */
    method CheckStamp(r: Request) returns (outcome: Option<Outcome>)
      modifies this`stamp
      ensures outcome.Some? ==> outcome.value.Error? || outcome.value.Stopped? || outcome.value == AlreadyInit
      ensures outcome == Some(AlreadyInit) ==> Agreed() && stamp == old(stamp)
      ensures old(StampMatches()) && Agreed() && ChecksStamp(r) ==>
        outcome == Some(AlreadyInit)
    {
      if r.fate(ReadStamp).Crash? { return Some(Stopped); }
      if !r.fate(ReadStamp).Run? || stamp.None? || TrimSpace(stamp.value) != VERSION { return None; }
      if r.fate(Match).Crash? { return Some(Stopped); }
      if r.fate(Match).Run? {
        var matches := Matches();
        if matches { return Some(AlreadyInit); }
      }
      stamp := Replaced(r.fate(MarkPending), stamp, VERSION + "-credential-recovery-pending" + "\n");
      if !r.fate(MarkPending).Run? { return Some(Broken(r.fate(MarkPending))); }
      outcome := None;
    }

    /** A run that keeps the managed credential, or creates the first one. */
    method Provision(r: Request) returns (outcome: Outcome)
      requires Sound(hashing) && Drawn(r) && conf.Some?
      modifies this
      ensures outcome.Error? || outcome.Stopped? || outcome == AlreadyInit || outcome == Stamped
      ensures outcome == AlreadyInit ==> Agreed() && unchanged(this)
      ensures outcome == Stamped ==>
        credential == ProvisionedFile(r, old(credential))
          && Installed(r, old(conf), ProvisionedSecret(r, old(credential)))
      ensures Secret(old(credential)).Some? ==> credential == old(credential)
      ensures Steady(old(conf), conf)
      ensures old(StampMatches() && Agreed()) && ChecksStamp(r) ==>
        outcome == AlreadyInit
    {
      var early := CheckStamp(r);
      if early.Some? { return early.value; }
      var failed, password := ReadOrCreateSecret(r);
      if failed.Some? { return failed.value; }
      outcome := Install(r, false, "", "", password);
    }

    /** A run that replaces the credential, and refuses to when the files do not agree. */
    method Rotate(r: Request) returns (outcome: Outcome)
      requires Sound(hashing) && Drawn(r) && conf.Some?
      modifies this
      ensures outcome.Error? || outcome.Stopped? || outcome == Rotated
      ensures outcome == Rotated ==> credential == Some(r.generated) && Installed(r, old(conf), r.generated)
      ensures !old(Agreed()) ==> outcome != Rotated && unchanged(this)
      ensures old(Agreed()) && outcome == Error && TakesBack(r, old(conf).value) ==> Agreed()
      ensures Steady(old(conf), conf)
    {
      PersistedPlain(conf.value);
      var refused, previous, previousHash := BeginRotation(r);
      if refused.Some? { return refused.value; }
      outcome := Install(r, true, previous, previousHash, r.generated);
    }

    /** ensureQBittorrentInitialised */
    method Ensure(r: Request, rotate: bool) returns (outcome: Outcome)
      requires Sound(hashing) && Drawn(r)
      modifies this
      ensures outcome == NotEnabled <==> !r.enabled
      ensures outcome == NoConf <==> r.enabled && old(conf).None?
      ensures outcome == NotEnabled || outcome == NoConf || outcome == AlreadyInit ==> unchanged(this)
      ensures outcome == AlreadyInit ==> Agreed() && !rotate
      ensures outcome == Stamped ==> !rotate && old(conf).Some? && credential == ProvisionedFile(r, old(credential))
      ensures outcome == Stamped ==> Installed(r, old(conf), ProvisionedSecret(r, old(credential)))
      ensures outcome == Rotated ==> rotate && old(Agreed()) && credential == Some(r.generated)
      ensures outcome == Rotated ==> Installed(r, old(conf), r.generated)
      ensures rotate && !old(Agreed()) ==> outcome !in {Stamped, Rotated, AlreadyInit} && unchanged(this)
      ensures rotate && old(Agreed()) && outcome == Error && TakesBack(r, old(conf).value) ==> Agreed()
      ensures !rotate && Secret(old(credential)).Some? ==> credential == old(credential)
      ensures Steady(old(conf), conf)
      ensures !rotate && r.enabled && old(conf).Some? && old(StampMatches() && Agreed()) && ChecksStamp(r) ==>
        outcome == AlreadyInit
    {
      if !r.enabled { return NotEnabled; }
      if conf.None? { return NoConf; }
      if rotate {
        outcome := Rotate(r);
      } else {
        outcome := Provision(r);
      }
    }

    /** Any runs one after the other, provisioning and rotating, some of them cut short: whenever the last one
        succeeds and no earlier section hides the hash, the two files agree. A run after a crash between the two
        writes of a rotation is one of these. */
    method Serve(runs: seq<(Request, bool)>) returns (outcomes: seq<Outcome>)
      requires Sound(hashing) && forall i :: 0 <= i < |runs| ==> Drawn(runs[i].0)
      modifies this
      ensures |outcomes| == |runs| && Steady(old(conf), conf)
      ensures runs != [] && outcomes[|runs| - 1].Succeeds() ==>
        old(conf).Some? && (Hidden(old(conf).value).None? ==> Agreed())
    {
      outcomes := [];
      for i := 0 to |runs|
        invariant |outcomes| == i && Steady(old(conf), conf)
        invariant i > 0 && outcomes[i - 1].Succeeds() ==>
          old(conf).Some? && (Hidden(old(conf).value).None? ==> Agreed())
      {
        ghost var before := conf;
        var outcome := Ensure(runs[i].0, runs[i].1);
        outcomes := outcomes + [outcome];
        SteadyTwice(old(conf), before, conf);
      }
    }

    /** After a successful provisioning the next one has nothing to do. */
    method EnsureTwice(first: Request, second: Request) returns (outcome: Outcome, again: Outcome)
      requires Sound(hashing) && Drawn(first) && Drawn(second)
      requires second.enabled && ChecksStamp(second)
      modifies this
      ensures outcome == Stamped ==> conf.Some?
      ensures outcome == Stamped && Hidden(conf.value).None? ==> again == AlreadyInit && Agreed()
    {
      outcome := Ensure(first, false);
      TrimAfter(VERSION, '\n');
      again := Ensure(second, false);
    }
  }
}
