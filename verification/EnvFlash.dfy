/** The redundant environment: two flash slots, each with a checksum, a flag byte and an image.
    saveenv, env_init and the repair in env_relocate_spec are cut into their flash operations;
    the machine may stop between any two, or in the middle of writing an image or a checksum. */
module EnvFlash {

  type Image = seq<int>

  datatype Slot = Slot(crc: int, flags: int, data: Image)

  const ACTIVE := 1
  const OBSOLETE := 0
  const ERASED_FLAG := 0xFF
  const ERASED_WORD := 0xFFFF_FFFF

  type Checksum = Image -> int

  datatype Which = First | Second

  datatype Flash = Flash(first: Slot, second: Slot)

  function Other(w: Which): Which { if w == First then Second else First }

  function Get(f: Flash, w: Which): Slot { if w == First then f.first else f.second }

  function Set(f: Flash, w: Which, s: Slot): Flash
  {
    if w == First then f.(first := s) else f.(second := s)
  }

  predicate CrcOk(crc: Checksum, s: Slot) { crc(s.data) == s.crc }

  // ---- env_init ----

  /** Unset: no branch of env_init applies and env_addr keeps whatever it held. */
  datatype Choice = Use(slot: Which) | Default | Unset

  function EnvInit(crc: Checksum, f: Flash): Choice
  {
    var ok1, ok2 := CrcOk(crc, f.first), CrcOk(crc, f.second);
    var flag1, flag2 := f.first.flags, f.second.flags;
    if ok1 && !ok2 then Use(First)
    else if !ok1 && ok2 then Use(Second)
    else if !ok1 && !ok2 then Default
    else if flag1 == ACTIVE && flag2 == OBSOLETE then Use(First)
    else if flag1 == OBSOLETE && flag2 == ACTIVE then Use(Second)
    else if flag1 == flag2 then Use(First)
    else if flag1 == ERASED_FLAG then Use(First)
    else if flag2 == ERASED_FLAG then Use(Second)
    else Unset
  }

  /** env_init leaves env_addr unset exactly when both images check out and the flags differ,
      are not the pair of ACTIVE and OBSOLETE, and neither is still erased. */
  lemma UnsetExactlyWhen(crc: Checksum, f: Flash)
    ensures EnvInit(crc, f) == Unset <==>
              && CrcOk(crc, f.first) && CrcOk(crc, f.second) && f.first.flags != f.second.flags
              && {f.first.flags, f.second.flags} != {ACTIVE, OBSOLETE}
              && ERASED_FLAG !in {f.first.flags, f.second.flags}
  {
    var a, b := f.first.flags, f.second.flags;
    if {a, b} == {ACTIVE, OBSOLETE} {
      assert a in {ACTIVE, OBSOLETE} && b in {ACTIVE, OBSOLETE};
      assert ACTIVE in {a, b} && OBSOLETE in {a, b};
    }
  }

  // ---- the running system ----

  /** Saving: stage counts the flash operations done: erase, data, checksum, OBSOLETE on the old
      slot, ACTIVE on the new. Booting: the copy is chosen and stage repairs are done. */
  datatype Ram =
    | Off
    | Booting(active: Which, stage: nat)
    | Idle(active: Which)
    | Saving(active: Which, image: Image, stage: nat)

  /** home is the slot last known to be in use; prev its image, if that is not the built-in
      default; next the image last on its way into the other slot; stale the image that the other
      slot still offers because marking it OBSOLETE failed at the last start. */
  datatype Option = None | Some(value: Image)

  datatype History = History(home: Which, prev: Option, next: Option, stale: Option)

  datatype State = State(flash: Flash, ram: Ram, hist: History)

  ghost predicate Init(crc: Checksum, s: State)
  {
    && s.ram == Off && !CrcOk(crc, s.flash.first) && !CrcOk(crc, s.flash.second)
    && s.hist == History(First, None, None, None)
  }

  // ---- steps of saveenv ----

  ghost predicate BeginSave(s: State, t: State)
  {
    s.ram.Idle? && exists n: Image :: t == s.(ram := Saving(s.ram.active, n, 0))
  }

  ghost predicate AtStage(s: State, k: nat) { s.ram.Saving? && s.ram.stage == k }

  function Target(s: State): Which
    requires s.ram.Saving?
  {
    Other(s.ram.active)
  }

  function Advance(s: State, f: Flash): State
    requires s.ram.Saving?
  {
    s.(flash := f, ram := s.ram.(stage := s.ram.stage + 1))
  }

  ghost predicate EraseOther(crc: Checksum, s: State, t: State)
  {
    && AtStage(s, 0)
    && exists blank: Image ::
         && crc(blank) != ERASED_WORD
         && t == Advance(s, Set(s.flash, Target(s), Slot(ERASED_WORD, ERASED_FLAG, blank))).(hist := s.hist.(next := Some(s.ram.image), stale := None))
  }

  ghost predicate WriteData(s: State, t: State)
  {
    AtStage(s, 1) && t == Advance(s, Set(s.flash, Target(s), Get(s.flash, Target(s)).(data := s.ram.image)))
  }

  ghost predicate WriteCrc(crc: Checksum, s: State, t: State)
  {
    AtStage(s, 2) && t == Advance(s, Set(s.flash, Target(s), Get(s.flash, Target(s)).(crc := crc(s.ram.image))))
  }

  function WithFlag(f: Flash, w: Which, flag: int): Flash { Set(f, w, Get(f, w).(flags := flag)) }

  ghost predicate MarkOld(s: State, t: State)
  {
    AtStage(s, 3) && t == Advance(s, WithFlag(s.flash, s.ram.active, OBSOLETE))
  }

  ghost predicate MarkNew(s: State, t: State)
  {
    AtStage(s, 4) && t == Advance(s, WithFlag(s.flash, Target(s), ACTIVE))
  }

  /** The copies swap roles and saveenv returns zero. */
  ghost predicate Swap(s: State, t: State)
  {
    AtStage(s, 5) && t == s.(ram := Idle(Target(s)), hist := History(Target(s), Some(s.ram.image), None, None))
  }

  /** The write that restores the rest of the sector fails: saveenv returns zero too, but the
      copies have not swapped roles. */
  ghost predicate RestoreFails(s: State, t: State)
  {
    AtStage(s, 5) && t == s.(ram := Idle(s.ram.active))
  }

  /** What an interrupted write of the image or of the checksum can leave; flag bytes are written
      whole or not at all, and a torn image does not happen to have an erased checksum. */
  ghost predicate Torn(crc: Checksum, s: State, f: Flash)
    requires s.ram.Saving?
  {
    || f == s.flash
    || (s.ram.stage == 1 && exists d: Image ::
          (d == s.ram.image || crc(d) != ERASED_WORD) && f == Set(s.flash, Target(s), Get(s.flash, Target(s)).(data := d)))
    || (s.ram.stage == 2 && exists c: int :: f == Set(s.flash, Target(s), Get(s.flash, Target(s)).(crc := c)))
  }

  /** A flash operation of saveenv fails, perhaps half done: saveenv returns an error. */
  ghost predicate SaveFails(crc: Checksum, s: State, t: State)
  {
    s.ram.Saving? && s.ram.stage < 5 && Torn(crc, s, t.flash) && t == s.(ram := Idle(s.ram.active), flash := t.flash)
  }

  /** Power is lost, perhaps in the middle of a write. */
  ghost predicate Crash(crc: Checksum, s: State, t: State)
  {
    && t == s.(ram := Off, flash := t.flash)
    && (if s.ram.Saving? then Torn(crc, s, t.flash) else t.flash == s.flash)
  }

  // ---- env_init and env_relocate_spec at the next start ----

  ghost predicate BootDefault(crc: Checksum, s: State, t: State)
  {
    s.ram.Off? && EnvInit(crc, s.flash) == Default && t == s.(ram := Idle(First), hist := History(First, None, None, None))
  }

  ghost predicate BootChoose(crc: Checksum, s: State, t: State)
  {
    s.ram.Off? && EnvInit(crc, s.flash).Use? && t == s.(ram := Booting(EnvInit(crc, s.flash).slot, 0))
  }

  /** The other copy is valid and not marked OBSOLETE. */
  predicate Offered(crc: Checksum, f: Flash, o: Which) { CrcOk(crc, Get(f, o)) && Get(f, o).flags != OBSOLETE }

  /** Clearing bits can make the chosen copy's flag ACTIVE. */
  predicate Markable(f: Flash, a: Which) { Get(f, a).flags != ACTIVE && Get(f, a).flags % 2 == 1 }

  /** A second copy that is valid but not marked OBSOLETE gets marked; that the write may fail is
      ignored. */
  ghost predicate RepairOther(crc: Checksum, s: State, t: State)
  {
    && s.ram.Booting? && s.ram.stage == 0
    && var o := Other(s.ram.active);
       && (t.flash == s.flash || (Offered(crc, s.flash, o) && t.flash == WithFlag(s.flash, o, OBSOLETE)))
       && t == s.(flash := t.flash, ram := Booting(s.ram.active, 1))
  }

  /** The chosen copy's flag becomes ACTIVE if it can, unless the write fails; its image is copied to RAM. */
  ghost predicate RepairActive(crc: Checksum, s: State, t: State)
  {
    && s.ram.Booting? && s.ram.stage == 1
    && var a := s.ram.active;
       && (t.flash == s.flash || (Markable(s.flash, a) && t.flash == WithFlag(s.flash, a, ACTIVE)))
       && t == State(t.flash, Idle(a), History(a, Some(Get(s.flash, a).data), None, Left(crc, s.flash, Other(a))))
  }

  function Left(crc: Checksum, f: Flash, o: Which): Option { if Offered(crc, f, o) then Some(Get(f, o).data) else None }

  ghost predicate Next(crc: Checksum, s: State, t: State)
  {
    || BeginSave(s, t) || EraseOther(crc, s, t) || WriteData(s, t) || WriteCrc(crc, s, t) || MarkOld(s, t) || MarkNew(s, t)
    || Swap(s, t) || RestoreFails(s, t) || SaveFails(crc, s, t) || Crash(crc, s, t)
    || BootDefault(crc, s, t) || BootChoose(crc, s, t) || RepairOther(crc, s, t) || RepairActive(crc, s, t)
  }

  // ---- the invariant ----

  predicate FlagOk(s: Slot) { s.flags == ACTIVE || s.flags == OBSOLETE || s.flags == ERASED_FLAG }

  /** What flash looks like at every moment, seen from the home slot a: a valid other slot b either
      is marked OBSOLETE, or holds the image last saved there or left there by a failed repair. */
  ghost predicate SlotsOk(crc: Checksum, f: Flash, h: History)
  {
    var a, b := Get(f, h.home), Get(f, Other(h.home));
    if h.prev.Some? then
      && CrcOk(crc, a) && a.data == h.prev.value && FlagOk(a)
      && (CrcOk(crc, b) ==> FlagOk(b) && if b.flags == OBSOLETE then a.flags != OBSOLETE else Some(b.data) in {h.next, h.stale})
    else
      && h.home == First && h.stale == None && !CrcOk(crc, a)
      && (CrcOk(crc, b) ==> FlagOk(b) && b.flags != OBSOLETE && Some(b.data) == h.next)
  }

  /** How far the other slot has got while saving. */
  ghost predicate StageOk(crc: Checksum, s: State)
    requires s.ram.Saving?
  {
    var k, a, b := s.ram.stage, Get(s.flash, s.ram.active), Get(s.flash, Target(s));
    && k <= 5
    && (k >= 1 ==> s.hist.next == Some(s.ram.image) && s.hist.stale == None)
    && (k == 1 ==> !CrcOk(crc, b) && b.crc == ERASED_WORD && b.flags == ERASED_FLAG)
    && (k >= 2 ==> b.data == s.ram.image)
    && (k == 2 ==> b.crc == ERASED_WORD)
    && (k >= 3 ==> b.crc == crc(s.ram.image))
    && (2 <= k <= 4 ==> b.flags == ERASED_FLAG)
    && (k >= 4 ==> a.flags == OBSOLETE)
    && (k == 5 ==> b.flags == ACTIVE)
  }

  ghost predicate RamOk(crc: Checksum, s: State)
  {
    match s.ram
    case Off => true
    case Idle(a) => a == s.hist.home
    case Saving(a, _, _) => a == s.hist.home && StageOk(crc, s)
    case Booting(a, k) => EnvInit(crc, s.flash) == Use(a) && k <= 1
  }

  ghost predicate Inv(crc: Checksum, s: State)
  {
    SlotsOk(crc, s.flash, s.hist) && RamOk(crc, s)
  }

  // ---- the invariant is one ----

  lemma InitOk(crc: Checksum, s: State)
    requires Init(crc, s)
    ensures Inv(crc, s)
  {
  }

  lemma SaveStepOk(crc: Checksum, s: State, t: State)
    requires Inv(crc, s)
    requires BeginSave(s, t) || EraseOther(crc, s, t) || WriteData(s, t) || WriteCrc(crc, s, t) || MarkOld(s, t) || MarkNew(s, t)
    ensures Inv(crc, t)
  {
  }

  lemma SaveEndOk(crc: Checksum, s: State, t: State)
    requires Inv(crc, s)
    requires Swap(s, t) || RestoreFails(s, t) || SaveFails(crc, s, t) || Crash(crc, s, t)
    ensures Inv(crc, t)
  {
  }

  lemma BootOk(crc: Checksum, s: State, t: State)
    requires Inv(crc, s)
    requires BootDefault(crc, s, t) || BootChoose(crc, s, t) || RepairOther(crc, s, t) || RepairActive(crc, s, t)
    ensures Inv(crc, t)
  {
  }

  lemma NextOk(crc: Checksum, s: State, t: State)
    requires Inv(crc, s) && Next(crc, s, t)
    ensures Inv(crc, t)
  {
    hide Inv, BeginSave, EraseOther, WriteData, WriteCrc, MarkOld, MarkNew, Swap, RestoreFails, SaveFails, Crash, BootDefault, BootChoose, RepairOther, RepairActive;
    if BeginSave(s, t) || EraseOther(crc, s, t) || WriteData(s, t) || WriteCrc(crc, s, t) || MarkOld(s, t) || MarkNew(s, t) {
      SaveStepOk(crc, s, t);
    } else if Swap(s, t) || RestoreFails(s, t) || SaveFails(crc, s, t) || Crash(crc, s, t) {
      SaveEndOk(crc, s, t);
    } else {
      BootOk(crc, s, t);
    }
  }

  // ---- what it means ----

  ghost predicate Run(crc: Checksum, r: seq<State>)
  {
    && |r| > 0 && Init(crc, r[0])
    && forall i :: 0 <= i < |r| - 1 ==> Next(crc, r[i], r[i + 1])
  }

  /** The environment a restart at this moment would load. */
  function Loaded(crc: Checksum, f: Flash): Option
  {
    match EnvInit(crc, f)
    case Use(w) => Some(Get(f, w).data)
    case _ => None
  }

  /** A restart finds the previous environment, all of the one being saved, or one that a failed
      repair left behind; the built-in default only if there was none of them in flash. */
  ghost predicate Safe(crc: Checksum, s: State)
  {
    && EnvInit(crc, s.flash) != Unset
    && var found := Loaded(crc, s.flash);
       found == s.hist.prev || (found.Some? && (found == s.hist.next || found == s.hist.stale))
  }

  lemma InvIsSafe(crc: Checksum, s: State)
    requires Inv(crc, s)
    ensures Safe(crc, s)
    ensures s.hist.next == None && s.hist.stale == None ==> Loaded(crc, s.flash) == s.hist.prev
  {
  }

  lemma {:induction false} RunOk(crc: Checksum, r: seq<State>, i: nat)
    requires Run(crc, r) && i < |r|
    ensures Inv(crc, r[i])
  {
    if i == 0 {
      InitOk(crc, r[0]);
    } else {
      RunOk(crc, r, i - 1);
      assert Next(crc, r[i - 1], r[i - 1 + 1]);
      NextOk(crc, r[i - 1], r[i]);
    }
  }

  /** In every run, with power lost or a write failing anywhere, every state is safe. */
  lemma CrashSafe(crc: Checksum, r: seq<State>, i: nat)
    requires Run(crc, r) && i < |r|
    ensures Safe(crc, r[i])
  {
    RunOk(crc, r, i);
    InvIsSafe(crc, r[i]);
  }

  /** While the other slot is being rewritten and its checksum is still that of erased flash, a restart
      finds the environment last saved. */
  lemma ErasedFindsSaved(crc: Checksum, r: seq<State>, i: nat)
    requires Run(crc, r) && i < |r| && r[i].ram.Saving? && r[i].ram.stage == 1
    ensures Loaded(crc, r[i].flash) == r[i].hist.prev
  {
    RunOk(crc, r, i);
  }

  /** Which slot a restart takes while the other one offers a valid image: the home slot if its flag
      is the only one left erased, or the flags are alike and it comes first. */
  lemma HomeIsTaken(crc: Checksum, r: seq<State>, i: nat)
    requires Run(crc, r) && i < |r| && r[i].hist.prev.Some? && Offered(crc, r[i].flash, Other(r[i].hist.home))
    ensures var h := r[i].hist.home;
            var a, b := Get(r[i].flash, h).flags, Get(r[i].flash, Other(h)).flags;
            EnvInit(crc, r[i].flash) == Use(h) <==> (a == b && h == First) || (a == ERASED_FLAG && b != ERASED_FLAG)
  {
    RunOk(crc, r, i);
  }

  /** From the moment its checksum is written the new environment is the one a restart loads, unless
      the old one's flag was left erased by a failed repair: in the first slot that one is preferred
      until it is marked OBSOLETE. */
  lemma NewOnceChecksummed(crc: Checksum, r: seq<State>, i: nat)
    requires Run(crc, r) && i < |r| && r[i].ram.Saving? && r[i].ram.stage >= 3
    ensures var s := r[i];
            if s.ram.stage == 3 && s.ram.active == First && CrcOk(crc, s.flash.first) && s.flash.first.flags == ERASED_FLAG
            then EnvInit(crc, s.flash) == Use(First) && Loaded(crc, s.flash) == s.hist.prev
            else EnvInit(crc, s.flash) == Use(Target(s)) && Loaded(crc, s.flash) == Some(s.ram.image)
  {
    RunOk(crc, r, i);
  }

  /** Once saveenv has swapped the copies, restarts load what was saved until the next erase. */
  lemma SavedIsLoaded(crc: Checksum, r: seq<State>, i: nat, n: Image)
    requires Run(crc, r) && i < |r| && r[i].hist.prev == Some(n) && r[i].hist.next == None && r[i].hist.stale == None
    ensures Loaded(crc, r[i].flash) == Some(n)
  {
    RunOk(crc, r, i);
    InvIsSafe(crc, r[i]);
  }

  /** The repair loses the choice it was made on: the write to the other slot has failed, the one to
      the chosen slot has not, and the flags now speak for the other one. */
  ghost predicate Undone(crc: Checksum, s: State, t: State)
    requires s.ram.Booting?
  {
    var a, o := s.ram.active, Other(s.ram.active);
    && s.ram.stage == 1 && Offered(crc, s.flash, o) && Get(s.flash, a).flags == ERASED_FLAG && Get(t.flash, a).flags == ACTIVE
    && (a == Second || Get(s.flash, o).flags == ERASED_FLAG)
  }

  /** The repair after a restart, also when cut short, leaves the chosen copy chosen unless it is
      undone in that way; then the other copy is chosen. */
  lemma RepairKeepsChoice(crc: Checksum, r: seq<State>, i: nat)
    requires Run(crc, r) && i + 1 < |r| && r[i].ram.Booting?
    ensures EnvInit(crc, r[i].flash) == Use(r[i].ram.active)
    ensures EnvInit(crc, r[i + 1].flash) == Use(if Undone(crc, r[i], r[i + 1]) then Other(r[i].ram.active) else r[i].ram.active)
    ensures Get(r[i + 1].flash, First).data == Get(r[i].flash, First).data && Get(r[i + 1].flash, Second).data == Get(r[i].flash, Second).data
  {
    RunOk(crc, r, i);
    RunOk(crc, r, i + 1);
    assert Next(crc, r[i], r[i + 1]);
  }

  /** After power was lost behind the checksum write: the newer image in the second slot is loaded,
      the older one cannot be marked OBSOLETE, the newer one is marked ACTIVE, and from then on
      restarts load the older one. */
  lemma RepairGoesBack(crc: Checksum, s: State, t: State, u: State, older: Image, newer: Image)
    requires s == State(Flash(Slot(crc(older), ACTIVE, older), Slot(crc(newer), ERASED_FLAG, newer)), Off, History(First, Some(older), Some(newer), None))
    requires t == s.(ram := Booting(Second, 1))
    requires u == State(WithFlag(s.flash, Second, ACTIVE), Idle(Second), History(Second, Some(newer), None, Some(older)))
    ensures Inv(crc, s) && BootChoose(crc, s, s.(ram := Booting(Second, 0))) && RepairOther(crc, s.(ram := Booting(Second, 0)), t) && RepairActive(crc, t, u)
    ensures Loaded(crc, s.flash) == Some(newer) && Loaded(crc, u.flash) == Some(older)
  {
  }

  /** A save that reported success although restoring the sector failed is lost again when the
      next save begins: once the other slot is erased a restart loads the older environment. */
  lemma RestoreFailureForgets(crc: Checksum, s: State, t: State, u: State, w: State, older: Image)
    requires Inv(crc, s) && s.hist.prev == Some(older)
    requires RestoreFails(s, t) && BeginSave(t, u) && EraseOther(crc, u, w)
    ensures Loaded(crc, t.flash) == Some(s.ram.image) && Loaded(crc, w.flash) == Some(older)
  {
  }
}
