/**
  Extraction of the assets that ship in the APK, as a protocol against crashes. A run of
  `extractAssetName` is a sequence of file operations that can be cut short between any two
  of them and in the middle of the ones that are not atomic: writing a file, unpacking an
  archive, removing a directory. Renames and removals of single files are atomic.
 */
module AssetExtraction {
  import opened Common

  // ---------- Version strings ----------

  predicate IsDigit(c: char) { '0' <= c <= '9' }

  predicate AllDigits(s: string) { forall i :: 0 <= i < |s| ==> IsDigit(s[i]) }

  function Decimal(s: string): nat
    requires AllDigits(s)
  {
    if s == [] then 0 else 10 * Decimal(s[..|s| - 1]) + (s[|s| - 1] - '0') as nat
  }

  /** strconv.ParseUint(s, 10, 64), None for an error. */
  function ParseUint(s: string): Option<nat> {
    if s != [] && AllDigits(s) && Decimal(s) < TWO64 then Some(Decimal(s)) else None
  }

  /** Whether an APK of version `asset` replaces an extraction whose version file says `local`. */
  predicate Needs(asset: string, local: string) {
    if local == "Custom" then false
    else match ParseUint(asset)
         case None => asset != local
         case Some(av) => match ParseUint(local) case None => true case Some(lv) => av > lv
  }

  /**
    When an APK replaces an extraction: never one of its own version or one marked Custom; between two
    numbers, exactly when it is the larger; otherwise whenever the version files differ.
   */
  lemma NeedsLaw(asset: string, local: string)
    ensures !Needs(asset, asset) && !Needs(asset, "Custom")
    ensures ParseUint(asset).Some? && ParseUint(local).Some? ==>
              (Needs(asset, local) <==> ParseUint(local).value < ParseUint(asset).value)
    ensures ParseUint(asset).None? || ParseUint(local).None? ==>
              (Needs(asset, local) <==> asset != local && local != "Custom")
  {
    assert "Custom"[0] == 'C' && !IsDigit('C');
  }

  /** What counts as a number: one or more digits whose value fits 64 bits, most significant first. */
  lemma {:induction false} NumberLaw(s: string, c: char)
    requires AllDigits(s) && IsDigit(c)
    ensures ParseUint("") == None && ParseUint("0") == Some(0)
    ensures Decimal(s + [c]) == 10 * Decimal(s) + (c as int - '0' as int)
    ensures ParseUint(s + [c]) == if Decimal(s + [c]) < TWO64 then Some(Decimal(s + [c])) else None
  {
    assert (s + [c])[..|s|] == s;
    assert "0"[..0] == "";
  }

  /** An APK of version `b` replaces any extraction of `a`, even if writing its version file was cut short. */
  ghost predicate Upgrades(a: string, b: string) {
    forall p: string :: p <= a ==> Needs(b, p)
  }

  lemma {:induction false} DecimalOfPrefix(s: string, k: nat)
    requires AllDigits(s) && k <= |s|
    ensures AllDigits(s[..k]) && Decimal(s[..k]) <= Decimal(s)
    decreases |s|
  {
    if k < |s| {
      var init := s[..|s| - 1];
      DecimalOfPrefix(init, k);
      assert init[..k] == s[..k];
    } else {
      assert s[..k] == s;
    }
  }

  /** Growing decimal version numbers upgrade, whatever prefix a crash left behind. */
  lemma NumbersUpgrade(a: string, b: string)
    requires ParseUint(a).Some? && ParseUint(b).Some? && ParseUint(a).value < ParseUint(b).value
    ensures Upgrades(a, b)
  {
    forall p: string | p <= a
      ensures Needs(b, p)
    {
      DecimalOfPrefix(a, |p|);
      assert p == a[..|p|];
      assert "Custom"[0] == 'C' && !IsDigit('C');
    }
  }

  /** Other version strings need not: a torn "9x" reads as 9, which an APK of version 8 does not replace. */
  lemma TornVersionCanHideUpgrade()
    ensures Needs("8", "9x") && !Upgrades("9x", "8")
  {
    assert ParseUint("9x") == None by {
      assert !IsDigit("9x"[1]);
    }
    assert "9x"[..1] == "9";
    assert Decimal("9") == 10 * Decimal("9"[..0]) + 9;
    assert Decimal("8") == 10 * Decimal("8"[..0]) + 8;
    assert !Needs("8", "9");
    assert "9" <= "9x";
  }

  // ---------- State ----------

  /** geoip.db and geosite.db are single files; yacd is a directory. */
  datatype Kind = Geo | Yacd

  /**
    A complete extraction of a release, a torn one, or what the user put there. Where a removal has
    failed, a complete directory may also hold files of an older release.
   */
  datatype Content = Whole(release: nat) | Partial | Imported

  /** `archive` is the .xz or .zip copied out of the APK, `strays` the Yacd-* directories. */
  datatype Disk = Disk(dst: Option<Content>, ver: Option<string>, archive: Option<Content>,
                       tmp: Option<Content>, strays: map<string, Content>)

  datatype Pc =
    | Idle | Check | DropStale | OpenAsset | DropDst | DropStrays | WriteArchive | Unpack
    | DropArchive(ok: bool) | DropTmp | Glob | CleanStrays | Rename | OpenVersion | WriteVersion

  /**
    `release` is the asset release in the APK of the latest run, `dirs` the Yacd-*
    directories in its archive; `ended` tells how that run returned, if it did.
   */
  datatype State = State(disk: Disk, pc: Pc, release: nat, dirs: set<string>, official: bool, ended: Option<bool>)

  const Init := State(Disk(None, None, None, None, map[]), Idle, 0, {}, false, None)

  /** The version string of each asset release. */
  type Catalogue = nat -> string

  datatype Action =
    | Begin(release: nat, dirs: set<string>, official: bool)
    | Next                          // the current operation completes
    | Part(name: string, gone: bool)  // it gets part of the way
    | Fail                          // it returns an error
    | Crash
    | Import                        // the user installs a custom geo file

  // ---------- Steps ----------

  datatype Verdict = Keep | Extract | Redo

  function Decide(kind: Kind, official: bool, version: string, disk: Disk): Verdict {
    if disk.dst.None? then Extract
    else if official || kind.Yacd? then
      match disk.ver
      case None => Redo
      case Some(local) => if Needs(version, local) then Extract else Keep
    else Keep
  }

  function To(s: State, pc: Pc, disk: Disk): State { s.(pc := pc, disk := disk) }

  function End(s: State, ok: bool, disk: Disk): State { s.(pc := Idle, disk := disk, ended := Some(ok)) }

  ghost function Only(strays: map<string, Content>): Content
    requires strays != map[]
  {
    var d :| d in strays;
    strays[d]
  }

  function AfterUnpack(kind: Kind, s: State, ok: bool, disk: Disk): State {
    if ok then To(s, if kind.Geo? then Rename else Glob, disk)
    else if kind.Geo? then To(s, DropTmp, disk)
    else End(s, false, disk)
  }

  ghost function NextStep(cat: Catalogue, kind: Kind, s: State): Option<State> {
    var disk := s.disk;
    match s.pc
    case Idle => None
    case Check =>
      Some(match Decide(kind, s.official, cat(s.release), disk)
           case Keep => End(s, true, disk)
           case Extract => To(s, OpenAsset, disk)
           case Redo => To(s, DropStale, disk))
    case DropStale => Some(To(s, OpenAsset, disk.(dst := None)))
    case OpenAsset => Some(To(s, if kind.Geo? then WriteArchive else DropDst, disk))
    case DropDst => Some(To(s, DropStrays, disk.(dst := None)))
    case DropStrays => Some(To(s, WriteArchive, disk.(strays := map[])))
    case WriteArchive => Some(To(s, Unpack, disk.(archive := Some(Whole(s.release)))))
    case Unpack =>
      if disk.archive.None? || !disk.archive.value.Whole? then Some(To(s, DropArchive(false), disk))
      else
        var c := disk.archive.value;
        Some(To(s, DropArchive(true),
                if kind.Geo? then disk.(tmp := Some(c))
                else disk.(strays := disk.strays + map d | d in s.dirs :: c)))
    case DropArchive(ok) => Some(AfterUnpack(kind, s, ok, disk.(archive := None)))
    case DropTmp => Some(End(s, false, disk.(tmp := None)))
    case Glob => Some(To(s, if |disk.strays| == 1 then Rename else CleanStrays, disk))
    case CleanStrays => Some(End(s, false, disk.(strays := map[])))
    case Rename =>
      Some(if kind.Geo? then To(s, OpenVersion, disk.(dst := disk.tmp, tmp := None))
           // the rename can replace a directory that a removal has emptied, but no other
           else if disk.strays == map[] || (disk.dst.Some? && !disk.dst.value.Partial?) then End(s, false, disk)
           else To(s, OpenVersion, disk.(dst := Some(Only(disk.strays)), strays := map[])))
    case OpenVersion => Some(To(s, WriteVersion, disk.(ver := Some(""))))
    case WriteVersion => Some(End(s, true, disk.(ver := Some(cat(s.release)))))
  }

  function PartStep(cat: Catalogue, kind: Kind, s: State, name: string, gone: bool): Option<State> {
    var disk := s.disk;
    var tear := if gone then disk.strays - {name} else disk.strays[name := Partial];
    match s.pc
    case DropStale => if kind.Yacd? && disk.dst.Some? then Some(To(s, s.pc, disk.(dst := Some(Partial)))) else None
    case DropDst => if disk.dst.Some? then Some(To(s, s.pc, disk.(dst := Some(Partial)))) else None
    case DropStrays => if name in disk.strays then Some(To(s, s.pc, disk.(strays := tear))) else None
    case CleanStrays => if name in disk.strays then Some(To(s, s.pc, disk.(strays := tear))) else None
    case WriteArchive => Some(To(s, s.pc, disk.(archive := Some(Partial))))
    case Unpack =>
      if kind.Geo? then Some(To(s, s.pc, disk.(tmp := Some(Partial))))
      else if name in s.dirs then Some(To(s, s.pc, disk.(strays := disk.strays[name := Partial])))
      else None
    case WriteVersion => if name <= cat(s.release) then Some(To(s, s.pc, disk.(ver := Some(name)))) else None
    case _ => None
  }

  /** Errors of the removals are ignored: the run goes on with whatever is left. */
  function FailStep(kind: Kind, s: State): Option<State> {
    match s.pc
    case Idle => None
    case Check => Some(End(s, false, s.disk))
    case DropStale => Some(To(s, OpenAsset, s.disk))
    case OpenAsset => Some(End(s, false, s.disk))
    case DropDst => Some(To(s, DropStrays, s.disk))
    case DropStrays => Some(To(s, WriteArchive, s.disk))
    case WriteArchive => Some(if kind.Geo? then To(s, DropTmp, s.disk) else End(s, false, s.disk))
    case Unpack => Some(To(s, DropArchive(false), s.disk))
    case DropArchive(ok) => Some(AfterUnpack(kind, s, ok, s.disk))
    case DropTmp => Some(End(s, false, s.disk))
    case Glob => Some(End(s, false, s.disk))
    case CleanStrays => Some(End(s, false, s.disk))
    case Rename => Some(if kind.Geo? then To(s, DropTmp, s.disk) else End(s, false, s.disk))
    case OpenVersion => Some(End(s, false, s.disk))
    case WriteVersion => Some(End(s, false, s.disk))
  }

  ghost function Step(cat: Catalogue, kind: Kind, s: State, a: Action): Option<State> {
    match a
    case Begin(release, dirs, official) =>
      if s.pc.Idle? then Some(State(s.disk, Check, release, dirs, official, None)) else None
    case Next => NextStep(cat, kind, s)
    case Part(name, gone) => PartStep(cat, kind, s, name, gone)
    case Fail => FailStep(kind, s)
    case Crash => if s.pc.Idle? then None else Some(s.(pc := Idle, ended := None))
    case Import =>
      if s.pc.Idle? && kind.Geo?
      then Some(s.(disk := s.disk.(dst := Some(Imported), ver := Some("Custom")), ended := None)) else None
  }

  ghost function Exec(cat: Catalogue, kind: Kind, s: State, acts: seq<Action>): Option<State>
    decreases |acts|
  {
    if acts == [] then Some(s)
    else match Step(cat, kind, s, acts[0])
         case None => None
         case Some(t) => Exec(cat, kind, t, acts[1..])
  }

  // ---------- What histories are considered ----------

  /** Up to release `top`, later releases upgrade earlier ones. */
  ghost predicate Ordered(cat: Catalogue, top: nat) {
    forall a: nat, b: nat :: a < b <= top ==> Upgrades(cat(a), cat(b))
  }

  /** The APKs of the runs never get older, and none is past `top`. */
  predicate Rising(latest: nat, acts: seq<Action>, top: nat)
    decreases |acts|
  {
    acts == [] ||
    if acts[0].Begin? then latest <= acts[0].release <= top && Rising(acts[0].release, acts[1..], top)
    else Rising(latest, acts[1..], top)
  }

  /** Glob finds one directory although the archive brought none: a leftover whose removal failed. */
  predicate Slips(kind: Kind, s: State, a: Action) {
    kind.Yacd? && s.pc.Glob? && a.Next? && s.dirs == {} && |s.disk.strays| == 1
  }

  /** No leftover is taken for what an archive brought. */
  ghost predicate NoSlip(cat: Catalogue, kind: Kind, s: State, acts: seq<Action>)
    requires Exec(cat, kind, s, acts).Some?
    decreases |acts|
  {
    acts == [] || (!Slips(kind, s, acts[0]) && NoSlip(cat, kind, Step(cat, kind, s, acts[0]).value, acts[1..]))
  }

  // ---------- What the archives hold ----------

  /** The Yacd-* directories in the archive of each release. */
  type Archives = nat -> set<string>

  /** The runs are of releases with these archives. */
  predicate Ships(arch: Archives, acts: seq<Action>) {
    forall i :: 0 <= i < |acts| && acts[i].Begin? ==> acts[i].dirs == arch(acts[i].release)
  }

  /** Up to `top`, once an archive brings a directory all later ones do. */
  ghost predicate KeepsBringing(arch: Archives, top: nat) {
    forall a: nat, b: nat :: a <= b <= top && arch(a) != {} ==> arch(b) != {}
  }

  /** A leftover comes from an archive that brought it. */
  predicate Brought(arch: Archives, s: State) {
    && (s.disk.strays != map[] ==> arch(s.release) != {})
    && (!s.pc.Idle? ==> s.dirs == arch(s.release))
  }

  lemma BroughtStep(cat: Catalogue, arch: Archives, top: nat, s: State, a: Action)
    requires Step(cat, Yacd, s, a).Some? && Brought(arch, s) && KeepsBringing(arch, top)
    requires a.Begin? ==> s.release <= a.release <= top && a.dirs == arch(a.release)
    ensures Brought(arch, Step(cat, Yacd, s, a).value) && !Slips(Yacd, s, a)
  {
    hide Needs;
    var s' := Step(cat, Yacd, s, a).value;
    if s.pc.Unpack? && s.dirs == {} {
      assert (map d | d in s.dirs :: Whole(s.release)) == map[];
      assert s.disk.strays == map[] ==> s'.disk.strays == map[];
    }
    if s.disk.strays == map[] {
      assert |s.disk.strays| == 0;
    }
  }

  /** As long as archives keep bringing directories, no leftover is taken for an extraction, whatever removals fail. */
  lemma {:induction false} BringingNeverSlips(cat: Catalogue, arch: Archives, top: nat, s: State, acts: seq<Action>)
    requires Exec(cat, Yacd, s, acts).Some? && Rising(s.release, acts, top) && Ships(arch, acts)
    requires KeepsBringing(arch, top) && Brought(arch, s)
    ensures NoSlip(cat, Yacd, s, acts)
    decreases |acts|
  {
    hide Step, KeepsBringing, Brought, Slips;
    if acts != [] {
      StepRelease(cat, Yacd, s, acts[0]);
      BroughtStep(cat, arch, top, s, acts[0]);
      assert forall i :: 0 <= i < |acts| - 1 ==> acts[1..][i] == acts[i + 1];
      BringingNeverSlips(cat, arch, top, Step(cat, Yacd, s, acts[0]).value, acts[1..]);
    }
  }

  // ---------- The invariant ----------

  /** A version file that release r wrote, completely or not. */
  predicate WrittenBy(cat: Catalogue, c: string, r: nat) { c <= cat(r) }

  ghost predicate NoNewerThan(cat: Catalogue, c: string, bound: nat) {
    exists r: nat :: r <= bound && WrittenBy(cat, c, r)
  }

  /** The version file makes a run of release `latest` extract. */
  ghost predicate Outdated(cat: Catalogue, latest: nat, ver: Option<string>) {
    ver.Some? ==> NoNewerThan(cat, ver.value, latest) && Needs(cat(latest), ver.value)
  }

  /** What the disk can look like at any moment. */
  ghost predicate DiskOk(cat: Catalogue, kind: Kind, latest: nat, disk: Disk) {
    match disk.dst
    case None => if kind.Geo? then disk.ver.None? else Outdated(cat, latest, disk.ver)
    case Some(Partial) => kind.Yacd? && Outdated(cat, latest, disk.ver)
    case Some(Whole(d)) => d <= latest && (disk.ver.Some? ==> NoNewerThan(cat, disk.ver.value, d))
    case Some(Imported) => kind.Geo? && disk.ver == Some("Custom")
  }

  predicate AllWhole(strays: map<string, Content>, release: nat) {
    forall d :: d in strays ==> strays[d] == Whole(release)
  }

  /** Everything the archive holds has been unpacked. */
  predicate Unpacked(s: State) {
    forall d :: d in s.dirs ==> d in s.disk.strays && s.disk.strays[d] == Whole(s.release)
  }

  /** What holds at each point of a run. */
  ghost predicate PcOk(cat: Catalogue, kind: Kind, s: State) {
    var disk := s.disk;
    match s.pc
    case Idle =>
      s.ended == Some(true) && (s.official || kind.Yacd?) ==>
        disk.dst == Some(Whole(s.release)) || (kind.Geo? && disk.ver == Some("Custom"))
    case Check => true
    case DropStale => disk.ver.None?
    case OpenAsset => disk.dst != Some(Imported) && Outdated(cat, s.release, disk.ver)
    case DropDst => kind.Yacd? && Outdated(cat, s.release, disk.ver)
    case DropStrays => kind.Yacd?
    case WriteArchive => disk.dst != Some(Imported)
    case Unpack => disk.dst != Some(Imported) && disk.archive == Some(Whole(s.release))
    case DropArchive(ok) =>
      && disk.dst != Some(Imported)
      && (ok ==> if kind.Geo? then disk.tmp == Some(Whole(s.release)) else Unpacked(s))
    case DropTmp => true
    case Glob => kind.Yacd? && Unpacked(s)
    case CleanStrays => kind.Yacd?
    case Rename =>
      && disk.dst != Some(Imported)
      && if kind.Geo? then disk.tmp == Some(Whole(s.release)) else AllWhole(disk.strays, s.release)
    case OpenVersion => disk.dst == Some(Whole(s.release))
    case WriteVersion => disk.dst == Some(Whole(s.release))
  }

  ghost predicate Inv(cat: Catalogue, kind: Kind, s: State) {
    DiskOk(cat, kind, s.release, s.disk) && PcOk(cat, kind, s)
  }

  /** Moving on to a later release keeps an outdated version file outdated. */
  lemma OutdatedLater(cat: Catalogue, top: nat, latest: nat, later: nat, ver: Option<string>)
    requires Ordered(cat, top) && latest <= later <= top && Outdated(cat, latest, ver)
    ensures Outdated(cat, later, ver)
  {
    if ver.Some? && latest < later {
      var r: nat :| r <= latest && WrittenBy(cat, ver.value, r);
      assert Upgrades(cat(r), cat(later));
      assert NoNewerThan(cat, ver.value, later);
    }
  }

  /** A version file that stops a run of `latest` from extracting was written by `latest`. */
  lemma KeepMeansCurrent(cat: Catalogue, top: nat, latest: nat, d: nat, c: string)
    requires Ordered(cat, top) && d <= latest <= top && NoNewerThan(cat, c, d) && !Needs(cat(latest), c)
    ensures d == latest
  {
    var r: nat :| r <= d && WrittenBy(cat, c, r);
    assert r < latest ==> Upgrades(cat(r), cat(latest));
  }

  lemma InvCheck(cat: Catalogue, top: nat, kind: Kind, s: State)
    requires Ordered(cat, top) && s.release <= top && Inv(cat, kind, s) && s.pc.Check?
    ensures Inv(cat, kind, NextStep(cat, kind, s).value)
  {
    var disk := s.disk;
    if disk.dst.Some? && disk.dst.value.Whole? && disk.ver.Some? {
      var d, c := disk.dst.value.release, disk.ver.value;
      if Needs(cat(s.release), c) {
        var r: nat :| r <= d && WrittenBy(cat, c, r);
        assert NoNewerThan(cat, c, s.release);
      } else {
        KeepMeansCurrent(cat, top, s.release, d, c);
      }
    }
  }

  lemma WrittenNow(cat: Catalogue, c: string, r: nat)
    requires c <= cat(r)
    ensures NoNewerThan(cat, c, r)
  {
    assert WrittenBy(cat, c, r);
  }

  /** The one directory found is one the archive brought. */
  lemma GlobFinds(s: State)
    requires Unpacked(s) && |s.disk.strays| == 1 && s.dirs != {}
    ensures AllWhole(s.disk.strays, s.release)
  {
    var d :| d in s.dirs;
    var keys := s.disk.strays.Keys;
    assert |keys - {d}| == 0;
    assert keys == {d};
  }

  lemma OnlyWhole(strays: map<string, Content>, release: nat)
    requires strays != map[] && AllWhole(strays, release)
    ensures Only(strays) == Whole(release)
  {
  }

  lemma InvRename(cat: Catalogue, kind: Kind, s: State)
    requires Inv(cat, kind, s) && s.pc.Rename?
    ensures Inv(cat, kind, NextStep(cat, kind, s).value)
  {
    hide Only, AllWhole;
    if s.disk.ver.Some? && s.disk.dst.Some? && s.disk.dst.value.Whole? {
      var r: nat :| r <= s.disk.dst.value.release && WrittenBy(cat, s.disk.ver.value, r);
      assert NoNewerThan(cat, s.disk.ver.value, s.release);
    }
    if kind.Yacd? && s.disk.strays != map[] {
      OnlyWhole(s.disk.strays, s.release);
    }
  }

  lemma InvNext(cat: Catalogue, top: nat, kind: Kind, s: State)
    requires Ordered(cat, top) && s.release <= top && Inv(cat, kind, s) && NextStep(cat, kind, s).Some?
    requires !Slips(kind, s, Next)
    ensures Inv(cat, kind, NextStep(cat, kind, s).value)
  {
    match s.pc
    case Check => InvCheck(cat, top, kind, s);
    case OpenVersion => WrittenNow(cat, "", s.release);
    case WriteVersion => WrittenNow(cat, cat(s.release), s.release);
    case Rename => InvRename(cat, kind, s);
    case Glob =>
      if |s.disk.strays| == 1 {
        GlobFinds(s);
      }
    case _ => InvRemoval(cat, kind, s);
  }

  /** Removing, copying and unpacking. */
  lemma InvRemoval(cat: Catalogue, kind: Kind, s: State)
    requires Inv(cat, kind, s) && NextStep(cat, kind, s).Some?
    requires !s.pc.Check? && !s.pc.OpenVersion? && !s.pc.WriteVersion? && !s.pc.Rename? && !s.pc.Glob?
    ensures Inv(cat, kind, NextStep(cat, kind, s).value)
  {
    hide Needs, NoNewerThan;
  }

  lemma InvFail(cat: Catalogue, kind: Kind, s: State)
    requires Inv(cat, kind, s) && FailStep(kind, s).Some?
    ensures Inv(cat, kind, FailStep(kind, s).value)
  {
    hide Needs, NoNewerThan;
  }

  lemma InvPart(cat: Catalogue, kind: Kind, s: State, name: string, gone: bool)
    requires Inv(cat, kind, s) && PartStep(cat, kind, s, name, gone).Some?
    ensures Inv(cat, kind, PartStep(cat, kind, s, name, gone).value)
  {
    if s.pc.WriteVersion? {
      WrittenNow(cat, name, s.release);
    }
    hide Needs, NoNewerThan;
  }

  lemma InvStep(cat: Catalogue, top: nat, kind: Kind, s: State, a: Action)
    requires Ordered(cat, top) && s.release <= top && Inv(cat, kind, s) && Step(cat, kind, s, a).Some?
    requires a.Begin? ==> s.release <= a.release <= top
    requires !Slips(kind, s, a)
    ensures Inv(cat, kind, Step(cat, kind, s, a).value)
  {
    hide Outdated, NextStep, FailStep, PartStep;
    match a
    case Begin(release, dirs, official) => InvBegin(cat, top, kind, s, a);
    case Next => InvNext(cat, top, kind, s);
    case Part(name, gone) => InvPart(cat, kind, s, name, gone);
    case Fail => InvFail(cat, kind, s);
    case _ =>
  }

  lemma InvBegin(cat: Catalogue, top: nat, kind: Kind, s: State, a: Action)
    requires Ordered(cat, top) && Inv(cat, kind, s) && Step(cat, kind, s, a).Some?
    requires a.Begin? && s.release <= a.release <= top
    ensures Inv(cat, kind, Step(cat, kind, s, a).value)
  {
    hide Outdated;
    if s.disk.dst.None? || s.disk.dst.value.Partial? {
      if kind.Yacd? {
        OutdatedLater(cat, top, s.release, a.release, s.disk.ver);
      }
    }
  }

  lemma StepRelease(cat: Catalogue, kind: Kind, s: State, a: Action)
    requires Step(cat, kind, s, a).Some?
    ensures Step(cat, kind, s, a).value.release == if a.Begin? then a.release else s.release
  {
  }

  lemma {:induction false} InvExec(cat: Catalogue, top: nat, kind: Kind, s: State, acts: seq<Action>)
    requires Ordered(cat, top) && s.release <= top && Inv(cat, kind, s)
    requires Rising(s.release, acts, top) && Exec(cat, kind, s, acts).Some? && NoSlip(cat, kind, s, acts)
    ensures Inv(cat, kind, Exec(cat, kind, s, acts).value) && Exec(cat, kind, s, acts).value.release <= top
    decreases |acts|
  {
    hide Step, Inv, Ordered, Slips;
    if acts != [] {
      StepRelease(cat, kind, s, acts[0]);
      InvStep(cat, top, kind, s, acts[0]);
      InvExec(cat, top, kind, Step(cat, kind, s, acts[0]).value, acts[1..]);
    }
  }

  // ---------- The results ----------

  /** What keeps a geo file whole: only a complete decompression is ever renamed onto it. */
  predicate GeoOk(s: State) {
    && s.disk.dst != Some(Partial) && !s.pc.DropDst? && !s.pc.Glob?
    && (s.pc == DropArchive(true) || s.pc.Rename? ==> s.disk.tmp.Some? && s.disk.tmp.value.Whole?)
  }

  lemma GeoStep(cat: Catalogue, s: State, a: Action)
    requires GeoOk(s) && Step(cat, Geo, s, a).Some?
    ensures GeoOk(Step(cat, Geo, s, a).value)
  {
  }

  lemma {:induction false} GeoExec(cat: Catalogue, s: State, acts: seq<Action>)
    requires GeoOk(s) && Exec(cat, Geo, s, acts).Some?
    ensures GeoOk(Exec(cat, Geo, s, acts).value)
    decreases |acts|
  {
    hide Step, GeoOk;
    if acts != [] {
      GeoStep(cat, s, acts[0]);
      GeoExec(cat, Step(cat, Geo, s, acts[0]).value, acts[1..]);
    }
  }

  /**
    At every moment of every history, older APKs included, a geo file that exists is a complete
    extraction or the user's own.
   */
  lemma {:induction false} GeoAlwaysComplete(cat: Catalogue, acts: seq<Action>)
    requires Exec(cat, Geo, Init, acts).Some?
    ensures Exec(cat, Geo, Init, acts).value.disk.dst != Some(Partial)
  {
    GeoExec(cat, Init, acts);
  }

  /** A torn yacd directory is extracted again by the next run, whatever crashes made it. */
  lemma {:induction false} TornYacdIsRedone(cat: Catalogue, top: nat, acts: seq<Action>, release: nat, official: bool)
    requires Ordered(cat, top) && Rising(0, acts, top) && Exec(cat, Yacd, Init, acts).Some?
    requires NoSlip(cat, Yacd, Init, acts)
    requires Exec(cat, Yacd, Init, acts).value.disk.dst == Some(Partial)
    requires Exec(cat, Yacd, Init, acts).value.release <= release <= top
    ensures Decide(Yacd, official, cat(release), Exec(cat, Yacd, Init, acts).value.disk) != Keep
  {
    InvExec(cat, top, Yacd, Init, acts);
    var s := Exec(cat, Yacd, Init, acts).value;
    OutdatedLater(cat, top, s.release, release, s.disk.ver);
  }

  /** A run that ends without error in an upgrading mode leaves its APK's asset, complete; a Custom geo file stays. */
  lemma {:induction false} CleanRunIsCurrent(cat: Catalogue, top: nat, kind: Kind, acts: seq<Action>)
    requires Ordered(cat, top) && Rising(0, acts, top) && Exec(cat, kind, Init, acts).Some?
    requires NoSlip(cat, kind, Init, acts)
    requires var s := Exec(cat, kind, Init, acts).value; s.ended == Some(true) && s.pc.Idle?
    ensures var s := Exec(cat, kind, Init, acts).value;
            s.official || kind.Yacd? ==>
              s.disk.dst == Some(Whole(s.release)) || (kind.Geo? && s.disk.ver == Some("Custom"))
  {
    InvExec(cat, top, kind, Init, acts);
  }

  // ---------- What is current is left alone ----------

  /** The whole of a run that finds nothing to do. */
  lemma {:induction false} KeptRun(cat: Catalogue, kind: Kind, s: State, release: nat, dirs: set<string>,
                                   official: bool)
    requires s.pc.Idle? && s.disk.dst.Some?
    requires (kind.Geo? && !official) || (s.disk.ver.Some? && !Needs(cat(release), s.disk.ver.value))
    ensures Exec(cat, kind, s, [Begin(release, dirs, official), Next])
            == Some(State(s.disk, Idle, release, dirs, official, Some(true)))
  {
    hide Needs;
    var acts := [Begin(release, dirs, official), Next];
    assert acts[1..] == [Next] && [Next][1..] == [];
  }

  /**
    An asset of this APK's own version, one marked Custom, and a geo file from elsewhere are left alone:
    the run ends without error and the disk is as it was.
   */
  lemma {:induction false} CurrentIsLeftAlone(cat: Catalogue, kind: Kind, s: State, release: nat, dirs: set<string>,
                                              official: bool)
    requires s.pc.Idle? && s.disk.dst.Some?
    requires s.disk.ver == Some(cat(release)) || s.disk.ver == Some("Custom") || (kind.Geo? && !official)
    ensures Exec(cat, kind, s, [Begin(release, dirs, official), Next])
            == Some(State(s.disk, Idle, release, dirs, official, Some(true)))
  {
    NeedsLaw(cat(release), "");
    KeptRun(cat, kind, s, release, dirs, official);
  }

  /** A run that has ended without error would be kept if it were repeated. */
  predicate Settled(cat: Catalogue, kind: Kind, s: State) {
    && (s.pc.Idle? && s.ended == Some(true) ==>
          s.disk.dst.Some? && Decide(kind, s.official, cat(s.release), s.disk) == Keep)
    && (s.pc.OpenVersion? || s.pc.WriteVersion? ==> s.disk.dst.Some?)
    && (kind.Geo? && (s.pc == DropArchive(true) || s.pc.Rename?) ==> s.disk.tmp.Some?)
    && (kind.Geo? ==> !s.pc.Glob?)
  }

  lemma SettledNext(cat: Catalogue, kind: Kind, s: State)
    requires Settled(cat, kind, s) && NextStep(cat, kind, s).Some?
    ensures Settled(cat, kind, NextStep(cat, kind, s).value)
  {
    hide Needs;
    match s.pc
    case Check =>
    case WriteVersion => SettledVersion(cat, kind, s);
    case _ =>
  }

  lemma SettledVersion(cat: Catalogue, kind: Kind, s: State)
    requires Settled(cat, kind, s) && s.pc.WriteVersion?
    ensures Settled(cat, kind, NextStep(cat, kind, s).value)
  {
    NeedsLaw(cat(s.release), "");
    hide Needs;
  }

  lemma SettledStep(cat: Catalogue, kind: Kind, s: State, a: Action)
    requires Settled(cat, kind, s) && Step(cat, kind, s, a).Some?
    ensures Settled(cat, kind, Step(cat, kind, s, a).value)
  {
    hide Needs, NextStep;
    match a
    case Next => SettledNext(cat, kind, s);
    case _ =>
  }

  lemma {:induction false} SettledExec(cat: Catalogue, kind: Kind, s: State, acts: seq<Action>)
    requires Settled(cat, kind, s) && Exec(cat, kind, s, acts).Some?
    ensures Settled(cat, kind, Exec(cat, kind, s, acts).value)
    decreases |acts|
  {
    hide Step, Settled;
    if acts != [] {
      SettledStep(cat, kind, s, acts[0]);
      SettledExec(cat, kind, Step(cat, kind, s, acts[0]).value, acts[1..]);
    }
  }

  /**
    After any history that ends with a run without error the asset exists, and the same run once more
    changes nothing, whatever the versions, crashes and failures before.
   */
  lemma {:induction false} SecondRunChangesNothing(cat: Catalogue, kind: Kind, acts: seq<Action>, dirs: set<string>)
    requires Exec(cat, kind, Init, acts).Some?
    requires var s := Exec(cat, kind, Init, acts).value; s.ended == Some(true) && s.pc.Idle?
    ensures var s := Exec(cat, kind, Init, acts).value;
            && s.disk.dst.Some?
            && Exec(cat, kind, s, [Begin(s.release, dirs, s.official), Next]) == Some(s.(dirs := dirs))
  {
    SettledExec(cat, kind, Init, acts);
    var s := Exec(cat, kind, Init, acts).value;
    hide Needs;
    KeptRun(cat, kind, s, s.release, dirs, s.official);
  }

  // ---------- What the user installed ----------

  predicate UsersOwn(s: State) {
    && (s.pc.Idle? || s.pc.Check?)
    && s.disk.dst == Some(Imported) && s.disk.ver == Some("Custom")
  }

  lemma UsersOwnStep(cat: Catalogue, s: State, a: Action)
    requires UsersOwn(s) && Step(cat, Geo, s, a).Some?
    ensures UsersOwn(Step(cat, Geo, s, a).value)
  {
  }

  lemma {:induction false} UsersOwnExec(cat: Catalogue, s: State, acts: seq<Action>)
    requires UsersOwn(s) && Exec(cat, Geo, s, acts).Some?
    ensures UsersOwn(Exec(cat, Geo, s, acts).value)
    decreases |acts|
  {
    hide Step, UsersOwn;
    if acts != [] {
      UsersOwnStep(cat, s, acts[0]);
      UsersOwnExec(cat, Step(cat, Geo, s, acts[0]).value, acts[1..]);
    }
  }

  /** A geo file that the user installed is there for good, whatever runs, crashes and failures follow. */
  lemma {:induction false} ImportedIsKept(cat: Catalogue, s: State, acts: seq<Action>)
    requires s.pc.Idle? && Exec(cat, Geo, s, [Import] + acts).Some?
    ensures var t := Exec(cat, Geo, s, [Import] + acts).value;
            t.disk.dst == Some(Imported) && t.disk.ver == Some("Custom")
  {
    assert ([Import] + acts)[1..] == acts;
    UsersOwnExec(cat, Step(cat, Geo, s, Import).value, acts);
  }

  // ---------- Errors ----------

  function Nexts(k: nat): seq<Action> { seq(k, _ => Next) }

  /** Removals, whose errors are ignored. */
  predicate Removes(pc: Pc) {
    pc.DropStale? || pc.DropDst? || pc.DropStrays? || pc.DropArchive? || pc.DropTmp? || pc.CleanStrays?
  }

  /** A removal that fails leaves the disk as it is; the run goes on as if it had not. */
  lemma RemovalErrorsAreIgnored(cat: Catalogue, kind: Kind, s: State)
    requires Removes(s.pc)
    ensures Step(cat, kind, s, Fail).Some? && Step(cat, kind, s, Next).Some?
    ensures Step(cat, kind, s, Fail).value == Step(cat, kind, s, Next).value.(disk := s.disk)
  {
  }

  /** A geo extraction has a temporary file to remove, a failed decompression an archive. */
  predicate HasTmp(kind: Kind, pc: Pc) { kind.Geo? && (pc.WriteArchive? || pc.Unpack? || pc.Rename?) }

  /**
    Any other operation that fails ends the run with an error, after the archive and the temporary file
    of the extraction have been removed; the asset and its version file are as they were.
   */
  lemma {:induction false} ErrorsAreReported(cat: Catalogue, kind: Kind, s: State)
    requires !s.pc.Idle? && !Removes(s.pc)
    ensures var tidy := (if s.pc.Unpack? then 1 else 0) + (if HasTmp(kind, s.pc) then 1 else 0);
            var disk := s.disk.(archive := if s.pc.Unpack? then None else s.disk.archive,
                                tmp := if HasTmp(kind, s.pc) then None else s.disk.tmp);
            Exec(cat, kind, s, [Fail] + Nexts(tidy)) == Some(s.(pc := Idle, disk := disk, ended := Some(false)))
  {
    var tidy := (if s.pc.Unpack? then 1 else 0) + (if HasTmp(kind, s.pc) then 1 else 0);
    var s1 := Step(cat, kind, s, Fail).value;
    assert ([Fail] + Nexts(tidy))[1..] == Nexts(tidy);
    if tidy == 0 {
      assert Exec(cat, kind, s1, Nexts(0)) == Some(s1);
    } else {
      var s2 := Step(cat, kind, s1, Next).value;
      NextFirst(cat, kind, s1, tidy);
      if tidy == 1 {
        assert Exec(cat, kind, s2, Nexts(0)) == Some(s2);
      } else {
        NextFirst(cat, kind, s2, 1);
        assert Exec(cat, kind, Step(cat, kind, s2, Next).value, Nexts(0)) == Step(cat, kind, s2, Next);
      }
    }
  }

  lemma {:induction false} NextFirst(cat: Catalogue, kind: Kind, s: State, k: nat)
    requires k > 0 && Step(cat, kind, s, Next).Some?
    ensures Exec(cat, kind, s, Nexts(k)) == Exec(cat, kind, Step(cat, kind, s, Next).value, Nexts(k - 1))
  {
    hide NextStep;
    assert Nexts(k)[1..] == Nexts(k - 1);
  }

  /** Without exactly one Yacd-* directory the run ends with an error and removes them all. */
  lemma {:induction false} WreckageIsRemoved(cat: Catalogue, kind: Kind, s: State)
    requires s.pc.Glob? && |s.disk.strays| != 1
    ensures Exec(cat, kind, s, [Next, Next])
            == Some(s.(pc := Idle, disk := s.disk.(strays := map[]), ended := Some(false)))
  {
    assert [Next, Next][1..] == [Next] && [Next][1..] == [];
  }

  /** An asset without a version file is removed before it is extracted again. */
  lemma {:induction false} StaleIsRemoved(cat: Catalogue, kind: Kind, s: State)
    requires s.pc.Check? && s.disk.dst.Some? && s.disk.ver.None? && (kind.Yacd? || s.official)
    ensures Exec(cat, kind, s, [Next, Next]) == Some(s.(pc := OpenAsset, disk := s.disk.(dst := None)))
  {
    assert [Next, Next][1..] == [Next] && [Next][1..] == [];
  }

  // ---------- Crashes ----------

  ghost predicate CrashLeaves(cat: Catalogue, kind: Kind, s: State, a: Action, disk: Disk) {
    Exec(cat, kind, s, [a, Crash]) == Some(s.(disk := disk, pc := Idle, ended := None))
  }

  lemma {:induction false} CrashAfter(cat: Catalogue, kind: Kind, s: State, a: Action)
    requires Step(cat, kind, s, a).Some? && !Step(cat, kind, s, a).value.pc.Idle?
    ensures Exec(cat, kind, s, [a, Crash]) == Some(Step(cat, kind, s, a).value.(pc := Idle, ended := None))
  {
    hide NextStep, PartStep, FailStep;
    assert [a, Crash][1..] == [Crash] && [Crash][1..] == [];
  }

  /** What a crash can leave of a file: part of the archive, of a decompressed file, of the version text. */
  lemma {:induction false} CrashTearsFiles(cat: Catalogue, kind: Kind, s: State, name: string, gone: bool)
    ensures s.pc.WriteArchive? ==> CrashLeaves(cat, kind, s, Part(name, gone), s.disk.(archive := Some(Partial)))
    ensures s.pc.Unpack? && kind.Geo? ==> CrashLeaves(cat, kind, s, Part(name, gone), s.disk.(tmp := Some(Partial)))
    ensures s.pc.OpenVersion? ==> CrashLeaves(cat, kind, s, Next, s.disk.(ver := Some("")))
    ensures s.pc.WriteVersion? && name <= cat(s.release) ==>
              CrashLeaves(cat, kind, s, Part(name, gone), s.disk.(ver := Some(name)))
  {
    hide Exec;
    if s.pc.OpenVersion? {
      CrashAfter(cat, kind, s, Next);
    } else if PartStep(cat, kind, s, name, gone).Some? {
      CrashAfter(cat, kind, s, Part(name, gone));
    }
  }

  /** What it can leave of directories: any one torn, by extraction or removal, or gone. */
  lemma {:induction false} CrashTearsDirectories(cat: Catalogue, s: State, name: string, gone: bool)
    ensures s.pc.Unpack? && name in s.dirs ==>
              CrashLeaves(cat, Yacd, s, Part(name, gone), s.disk.(strays := s.disk.strays[name := Partial]))
    ensures (s.pc.DropStale? || s.pc.DropDst?) && s.disk.dst.Some? ==>
              CrashLeaves(cat, Yacd, s, Part(name, gone), s.disk.(dst := Some(Partial)))
    ensures (s.pc.DropStrays? || s.pc.CleanStrays?) && name in s.disk.strays ==>
              && CrashLeaves(cat, Yacd, s, Part(name, false), s.disk.(strays := s.disk.strays[name := Partial]))
              && CrashLeaves(cat, Yacd, s, Part(name, true), s.disk.(strays := s.disk.strays - {name}))
  {
    hide Exec;
    if PartStep(cat, Yacd, s, name, false).Some? {
      CrashAfter(cat, Yacd, s, Part(name, false));
      CrashAfter(cat, Yacd, s, Part(name, true));
    }
  }

  // ---------- Recovery ----------

  function PcRank(pc: Pc): nat {
    match pc
    case Idle => 0
    case Check => 12
    case DropStale => 11
    case OpenAsset => 10
    case DropDst => 9
    case DropStrays => 8
    case WriteArchive => 7
    case Unpack => 6
    case DropArchive(_) => 5
    case Glob => 4
    case CleanStrays => 1
    case DropTmp => 1
    case Rename => 3
    case OpenVersion => 2
    case WriteVersion => 1
  }

  lemma NextRank(cat: Catalogue, kind: Kind, s: State)
    requires !s.pc.Idle?
    ensures NextStep(cat, kind, s).Some? && PcRank(NextStep(cat, kind, s).value.pc) < PcRank(s.pc)
  {
  }

  /** The rest of a run in which every operation completes. */
  ghost function Finish(cat: Catalogue, kind: Kind, s: State): State
    decreases PcRank(s.pc)
  {
    if s.pc.Idle? then s else Finish(cat, kind, NextStep(cat, kind, s).value)
  }

  /** No operation of the run has failed, and its archive holds one directory. */
  predicate OnCourse(kind: Kind, s: State) {
    && |s.dirs| == 1
    && s.pc != DropArchive(false) && !s.pc.DropTmp? && !s.pc.CleanStrays?
    && (s.pc.Idle? ==> s.ended == Some(true))
    && (kind.Yacd? && Past(s.pc) ==> s.disk.dst.None?)
    && (kind.Yacd? && (s.pc.WriteArchive? || s.pc.Unpack?) ==> s.disk.strays == map[])
    && (kind.Yacd? && (s.pc.DropArchive? || s.pc.Glob? || s.pc.Rename?) ==> s.disk.strays.Keys == s.dirs)
    && (s.pc.Glob? || s.pc.Rename? || Replaced(s.pc) ==> s.disk.archive.None?)
    && (Replaced(s.pc) ==> NoLeftovers(kind, s.disk))
  }

  /** The asset has been replaced. */
  predicate Replaced(pc: Pc) { pc.OpenVersion? || pc.WriteVersion? }

  /** Neither a temporary file nor a stray directory. */
  predicate NoLeftovers(kind: Kind, disk: Disk) {
    disk.archive.None? && if kind.Geo? then disk.tmp.None? else disk.strays == map[]
  }

  /** The old directory has been removed and the new one is not there yet. */
  predicate Past(pc: Pc) {
    pc.DropStrays? || pc.WriteArchive? || pc.Unpack? || pc.DropArchive? || pc.Glob? || pc.Rename?
  }

  lemma OnCourseUnpack(cat: Catalogue, kind: Kind, s: State)
    requires OnCourse(kind, s) && s.pc.Unpack? && s.disk.archive == Some(Whole(s.release))
    ensures OnCourse(kind, NextStep(cat, kind, s).value)
  {
    if kind.Yacd? {
      assert NextStep(cat, kind, s).value.disk.strays.Keys == s.dirs;
    }
  }

  lemma OnCourseGlob(cat: Catalogue, s: State)
    requires OnCourse(Yacd, s) && (s.pc.Glob? || s.pc.Rename?)
    ensures OnCourse(Yacd, NextStep(cat, Yacd, s).value) && !Slips(Yacd, s, Next)
  {
    assert |s.disk.strays| == |s.disk.strays.Keys|;
  }

  lemma OnCourseElse(cat: Catalogue, kind: Kind, s: State)
    requires OnCourse(kind, s) && !s.pc.Idle? && !s.pc.Unpack? && !(kind.Yacd? && (s.pc.Glob? || s.pc.Rename?))
    requires kind.Geo? ==> !s.pc.Glob?
    ensures OnCourse(kind, NextStep(cat, kind, s).value)
  {
  }

  lemma OnCourseNext(cat: Catalogue, kind: Kind, s: State)
    requires Inv(cat, kind, s) && OnCourse(kind, s) && !s.pc.Idle?
    ensures OnCourse(kind, NextStep(cat, kind, s).value)
    ensures !Slips(kind, s, Next)
  {
    hide OnCourse, NextStep, Outdated, NoNewerThan, Needs, Unpacked, AllWhole;
    if s.pc.Unpack? {
      OnCourseUnpack(cat, kind, s);
    } else if kind.Yacd? && (s.pc.Glob? || s.pc.Rename?) {
      OnCourseGlob(cat, s);
    } else {
      OnCourseElse(cat, kind, s);
    }
  }

  /** The run extracts: it is on its way to replace the asset and its version file, or has done so. */
  predicate Extracting(cat: Catalogue, kind: Kind, s: State) {
    && (s.pc.Check? ==> Decide(kind, s.official, cat(s.release), s.disk) != Keep)
    && (s.pc.Idle? ==>
          && s.disk.dst == Some(Whole(s.release)) && s.disk.ver == Some(cat(s.release)) && NoLeftovers(kind, s.disk))
  }

  lemma KeepsExtracting(cat: Catalogue, kind: Kind, s: State)
    requires Inv(cat, kind, s) && OnCourse(kind, s) && !s.pc.Idle?
    ensures var t := NextStep(cat, kind, s).value;
            && t.release == s.release && t.official == s.official
            && (Extracting(cat, kind, s) ==> Extracting(cat, kind, t))
  {
    OnCourseNext(cat, kind, s);
  }

  lemma {:induction false} FinishIsClean(cat: Catalogue, top: nat, kind: Kind, s: State)
    requires Ordered(cat, top) && s.release <= top && Inv(cat, kind, s) && OnCourse(kind, s)
    ensures OnCourse(kind, Finish(cat, kind, s))
    ensures Inv(cat, kind, Finish(cat, kind, s)) && Finish(cat, kind, s).pc.Idle?
    ensures Finish(cat, kind, s).release == s.release && Finish(cat, kind, s).official == s.official
    ensures Extracting(cat, kind, s) ==> Extracting(cat, kind, Finish(cat, kind, s))
    decreases PcRank(s.pc)
  {
    hide Inv, OnCourse, Extracting, Ordered, NextStep, PcRank;
    if !s.pc.Idle? {
      NextRank(cat, kind, s);
      OnCourseNext(cat, kind, s);
      InvNext(cat, top, kind, s);
      KeepsExtracting(cat, kind, s);
      FinishIsClean(cat, top, kind, NextStep(cat, kind, s).value);
    }
  }

  /**
    Whatever wreckage crashes and errors left behind, one run in which every operation
    completes, of an APK no older than the last one, repairs it.
   */
  lemma {:induction false} OneGoodRunRepairs(cat: Catalogue, top: nat, kind: Kind, acts: seq<Action>,
                                             release: nat, dir: string)
    requires Ordered(cat, top) && Rising(0, acts, top) && Exec(cat, kind, Init, acts).Some?
    requires NoSlip(cat, kind, Init, acts)
    requires Exec(cat, kind, Init, acts).value.pc.Idle?
    requires Exec(cat, kind, Init, acts).value.release <= release <= top
    ensures var s := Exec(cat, kind, Init, acts).value;
            var t := Finish(cat, kind, Step(cat, kind, s, Begin(release, {dir}, true)).value);
            && t.ended == Some(true)
            && (t.disk.dst == Some(Whole(release)) || (kind.Geo? && t.disk.ver == Some("Custom")))
  {
    InvExec(cat, top, kind, Init, acts);
    var s := Exec(cat, kind, Init, acts).value;
    InvStep(cat, top, kind, s, Begin(release, {dir}, true));
    FinishIsClean(cat, top, kind, Step(cat, kind, s, Begin(release, {dir}, true)).value);
  }

  // ---------- Older APKs ----------

  lemma {:induction false} ExecSnoc(cat: Catalogue, kind: Kind, s: State, acts: seq<Action>, a: Action)
    requires Exec(cat, kind, s, acts).Some?
    ensures Exec(cat, kind, s, acts + [a]) == Step(cat, kind, Exec(cat, kind, s, acts).value, a)
    decreases |acts|
  {
    if acts == [] {
      assert [] + [a] == [a];
      assert [a][1..] == [];
    } else {
      assert (acts + [a])[1..] == acts[1..] + [a];
      ExecSnoc(cat, kind, Step(cat, kind, s, acts[0]).value, acts[1..], a);
    }
  }

  lemma Then(cat: Catalogue, kind: Kind, acts: seq<Action>, s: State, a: Action)
    returns (acts': seq<Action>, s': State)
    requires Exec(cat, kind, Init, acts) == Some(s) && Step(cat, kind, s, a).Some?
    ensures Exec(cat, kind, Init, acts') == Some(s') == Step(cat, kind, s, a)
  {
    ExecSnoc(cat, kind, Init, acts, a);
    acts', s' := acts + [a], Step(cat, kind, s, a).value;
  }

  lemma {:induction false} ThenFinish(cat: Catalogue, kind: Kind, acts: seq<Action>, s: State)
    returns (acts': seq<Action>)
    requires Exec(cat, kind, Init, acts) == Some(s)
    ensures Exec(cat, kind, Init, acts') == Some(Finish(cat, kind, s))
    decreases PcRank(s.pc)
  {
    hide Exec, NextStep, PcRank;
    acts' := acts;
    if !s.pc.Idle? {
      NextRank(cat, kind, s);
      var s';
      acts', s' := Then(cat, kind, acts, s, Next);
      acts' := ThenFinish(cat, kind, acts', s');
    }
  }

  /**
    With an older APK installed in between, a clean run can leave a torn yacd directory:
    release 1 is killed while it removes the directory of release 0, then release 0 runs
    again and finds its own version file.
   */
  lemma DowngradeKeepsTornYacd(cat: Catalogue, dir: string) returns (acts: seq<Action>)
    requires Needs(cat(1), cat(0)) && !Needs(cat(0), cat(0))
    ensures Exec(cat, Yacd, Init, acts).Some?
    ensures var s := Exec(cat, Yacd, Init, acts).value;
            s.pc.Idle? && s.ended == Some(true) && s.disk.dst == Some(Partial)
  {
    var s;
    acts, s := Then(cat, Yacd, [], Init, Begin(0, {dir}, false));
    InvStep(cat, 0, Yacd, Init, Begin(0, {dir}, false));
    FinishIsClean(cat, 0, Yacd, s);
    acts := ThenFinish(cat, Yacd, acts, s);
    s := Finish(cat, Yacd, s);
    acts, s := Then(cat, Yacd, acts, s, Begin(1, {dir}, false));
    acts, s := Then(cat, Yacd, acts, s, Next);
    acts, s := Then(cat, Yacd, acts, s, Next);
    acts, s := Then(cat, Yacd, acts, s, Part("", false));
    acts, s := Then(cat, Yacd, acts, s, Crash);
    acts, s := Then(cat, Yacd, acts, s, Begin(0, {dir}, false));
    acts, s := Then(cat, Yacd, acts, s, Next);
  }

  // ---------- Archives that bring nothing ----------

  /** A history of the releases with these archives, none older than the one before it, and where it ends. */
  ghost predicate History(cat: Catalogue, arch: Archives, top: nat, acts: seq<Action>, s: State) {
    Exec(cat, Yacd, Init, acts) == Some(s) && Rising(0, acts, top) && Ships(arch, acts)
  }

  lemma {:induction false} RisingMore(cat: Catalogue, top: nat, s: State, acts: seq<Action>, a: Action)
    requires Exec(cat, Yacd, s, acts).Some? && Rising(s.release, acts, top)
    requires a.Begin? ==> Exec(cat, Yacd, s, acts).value.release <= a.release <= top
    ensures Rising(s.release, acts + [a], top)
    decreases |acts|
  {
    hide Step;
    if acts == [] {
      assert acts + [a] == [a] && [a][1..] == [];
    } else {
      assert (acts + [a])[1..] == acts[1..] + [a];
      StepRelease(cat, Yacd, s, acts[0]);
      RisingMore(cat, top, Step(cat, Yacd, s, acts[0]).value, acts[1..], a);
    }
  }

  lemma {:induction false} ThenHistory(cat: Catalogue, arch: Archives, top: nat, acts: seq<Action>, s: State, a: Action)
    returns (acts': seq<Action>, s': State)
    requires History(cat, arch, top, acts, s) && Step(cat, Yacd, s, a).Some?
    requires a.Begin? ==> s.release <= a.release <= top && a.dirs == arch(a.release)
    ensures History(cat, arch, top, acts', s') && Some(s') == Step(cat, Yacd, s, a)
  {
    hide Step, Exec, Rising;
    RisingMore(cat, top, Init, acts, a);
    acts', s' := Then(cat, Yacd, acts, s, a);
    ExecSnoc(cat, Yacd, Init, acts, a);
    acts' := acts + [a];
  }

  lemma {:induction false} NoHistory(cat: Catalogue, arch: Archives, top: nat)
    ensures History(cat, arch, top, [], Init)
  {
  }

  /** A run of release a is killed while it unpacks. */
  lemma KilledUnpacking(cat: Catalogue, arch: Archives, top: nat, a: nat, dir: string)
    returns (acts: seq<Action>, s: State)
    requires a <= top && dir in arch(a)
    ensures History(cat, arch, top, acts, s)
    ensures s == State(Disk(None, None, Some(Whole(a)), None, map[dir := Partial]), Idle, a, arch(a), false, None)
  {
    hide History;
    NoHistory(cat, arch, top);
    acts, s := ThenHistory(cat, arch, top, [], Init, Begin(a, arch(a), false));
    acts, s := ThenHistory(cat, arch, top, acts, s, Next);
    acts, s := ThenHistory(cat, arch, top, acts, s, Next);
    acts, s := ThenHistory(cat, arch, top, acts, s, Next);
    acts, s := ThenHistory(cat, arch, top, acts, s, Next);
    acts, s := ThenHistory(cat, arch, top, acts, s, Next);
    acts, s := ThenHistory(cat, arch, top, acts, s, Part(dir, false));
    acts, s := ThenHistory(cat, arch, top, acts, s, Crash);
  }

  /** Then a run of release b, whose archive holds no directory, fails to remove the leftover and reaches its Glob. */
  lemma LeftoverStays(cat: Catalogue, arch: Archives, top: nat, a: nat, b: nat, dir: string)
    returns (acts: seq<Action>, s: State)
    requires a <= b <= top && dir in arch(a) && arch(b) == {}
    ensures History(cat, arch, top, acts, s)
    ensures s == State(Disk(None, None, None, None, map[dir := Partial]), Glob, b, {}, false, None)
  {
    hide History;
    acts, s := KilledUnpacking(cat, arch, top, a, dir);
    acts, s := ThenHistory(cat, arch, top, acts, s, Begin(b, {}, false));
    acts, s := ThenHistory(cat, arch, top, acts, s, Next);
    acts, s := ThenHistory(cat, arch, top, acts, s, Next);
    acts, s := ThenHistory(cat, arch, top, acts, s, Next);
    acts, s := ThenHistory(cat, arch, top, acts, s, Fail);
    acts, s := ThenHistory(cat, arch, top, acts, s, Next);
    acts, s := ThenHistory(cat, arch, top, acts, s, Next);
    assert s.disk.strays == map[dir := Partial];
    acts, s := ThenHistory(cat, arch, top, acts, s, Next);
  }

  /** The clean run that ends it takes the leftover for the extraction and writes the version file. */
  lemma LeftoverPassesForRelease(cat: Catalogue, arch: Archives, top: nat, a: nat, b: nat, dir: string)
    returns (acts: seq<Action>, s: State)
    requires a <= b <= top && dir in arch(a) && arch(b) == {}
    ensures History(cat, arch, top, acts, s)
    ensures s.pc.Idle? && s.ended == Some(true) && s.release == b
    ensures s.disk.dst == Some(Partial) && s.disk.ver == Some(cat(b))
  {
    hide History;
    acts, s := LeftoverStays(cat, arch, top, a, b, dir);
    OneLeftover(s.disk.strays, dir);
    acts, s := ThenHistory(cat, arch, top, acts, s, Next);
    acts, s := ThenHistory(cat, arch, top, acts, s, Next);
    acts, s := ThenHistory(cat, arch, top, acts, s, Next);
    acts, s := ThenHistory(cat, arch, top, acts, s, Next);
  }

  lemma OneLeftover(strays: map<string, Content>, dir: string)
    requires strays == map[dir := Partial]
    ensures |strays| == 1 && strays != map[] && Only(strays) == Partial
  {
    assert strays.Keys == {dir};
    assert |strays| == |strays.Keys|;
  }

  /** Every clean run of these releases leaves its own asset, complete, whatever crashed or failed before and in it. */
  ghost predicate AlwaysCurrent(cat: Catalogue, arch: Archives, top: nat) {
    forall acts: seq<Action>, s: State ::
      History(cat, arch, top, acts, s) && s.pc.Idle? && s.ended == Some(true) ==> s.disk.dst == Some(Whole(s.release))
  }

  /** Exactly when archives keep bringing directories is every clean run's directory its own, complete. */
  lemma {:induction false} CurrentIffBringing(cat: Catalogue, arch: Archives, top: nat)
    requires Ordered(cat, top)
    ensures AlwaysCurrent(cat, arch, top) <==> KeepsBringing(arch, top)
  {
    if KeepsBringing(arch, top) {
      forall acts: seq<Action>, s: State | History(cat, arch, top, acts, s) && s.pc.Idle? && s.ended == Some(true)
        ensures s.disk.dst == Some(Whole(s.release))
      {
        BringingIsCurrent(cat, arch, top, acts, s);
      }
    }
    if a: nat, b: nat :| a <= b <= top && arch(a) != {} && arch(b) == {} {
      var dir :| dir in arch(a);
      var acts, s := LeftoverPassesForRelease(cat, arch, top, a, b, dir);
      assert !AlwaysCurrent(cat, arch, top);
    }
  }

  lemma {:induction false} BringingIsCurrent(cat: Catalogue, arch: Archives, top: nat, acts: seq<Action>, s: State)
    requires Ordered(cat, top) && KeepsBringing(arch, top) && History(cat, arch, top, acts, s)
    requires s.pc.Idle? && s.ended == Some(true)
    ensures s.disk.dst == Some(Whole(s.release))
  {
    hide Ordered, KeepsBringing, Exec, NoSlip;
    BringingNeverSlips(cat, arch, top, Init, acts);
    CleanRunIsCurrent(cat, top, Yacd, acts);
  }
}
