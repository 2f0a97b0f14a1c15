/** saveenv, env_init and env_relocate_spec as they are run: every flash operation they make is a
    step of the protocol, so every moment of their execution is a state of one of its runs. */
module EnvDriver {
  import opened EnvFlash

  class Driver {
    const crc: Checksum
    const blank: Image            // the data area of an erased sector
    var flash: Flash
    var flashAddr: Which          // flash_addr; flash_addr_new is the other slot
    ghost var log: seq<State>     // every moment so far
    ghost var failures: nat       // operations that failed, or reported that they did

    ghost predicate Valid()
      reads this
    {
      |log| > 0 && Run(crc, log) && Last().flash == flash && crc(blank) != ERASED_WORD
    }

    ghost function Last(): State
      reads this
      requires |log| > 0
    {
      log[|log| - 1]
    }

    /** A board that never held an environment. */
    constructor (crc: Checksum, blank: Image, flash: Flash)
      requires crc(blank) != ERASED_WORD && !CrcOk(crc, flash.first) && !CrcOk(crc, flash.second)
      ensures Valid() && this.crc == crc && Last().ram == Off && flashAddr == First && failures == 0
    {
      this.crc, this.blank, this.flash, flashAddr, failures := crc, blank, flash, First, 0;
      log := [State(flash, Off, History(First, None, None, None))];
    }

    ghost method Step(t: State)
      requires |log| > 0 && Run(crc, log) && Next(crc, Last(), t) && t.flash == flash && crc(blank) != ERASED_WORD
      modifies `log
      ensures Valid() && log == old(log) + [t]
    {
      var was := log;
      log := log + [t];
      hide Next;
      forall i | 0 <= i < |log| - 1 ensures Next(crc, log[i], log[i + 1])
      {
        if i < |was| - 1 { assert Next(crc, was[i], was[i + 1]); }
      }
    }

    /** While saving: k flash operations are done. */
    ghost predicate Doing(image: Image, k: nat)
      reads this
    {
      Valid() && Last().ram == Saving(flashAddr, image, k)
    }

    /** The image has begun to replace what the other slot held. */
    ghost predicate Pending(image: Image)
      reads this
      requires |log| > 0
    {
      Last().hist.next == Some(image) && Last().hist.stale == None
    }

    /** The slot in use keeps its image and checksum; its flag may be marked. */
    twostate predicate HomeKept()
      reads this
    {
      Get(flash, flashAddr).(flags := OBSOLETE) == Get(old(flash), flashAddr).(flags := OBSOLETE)
    }

    /** What an operation that may fail leaves: the next stage, or an end of the save and a failure. */
    twostate predicate Done(image: Image, k: nat, rc: int)
      reads this
    {
      && Valid() && |old(log)| > 0 && old(log) < log && flashAddr == old(flashAddr)
      && (rc == 0 ==> Doing(image, k + 1))
      && (rc != 0 ==> Last().ram == Idle(flashAddr))
      && failures == old(failures) + (if rc == 0 then 0 else 1) && HomeKept()
      && Last().hist.prev == old(Last()).hist.prev && Last().hist.home == old(Last()).hist.home
      && (Pending(image) || (k == 0 && rc != 0 && flash == old(flash) && Last().hist == old(Last()).hist))
    }

    /** flash_sect_erase on the other slot, which may also be refused and leave it as it is. */
    method Erase(ghost image: Image) returns (rc: int)
      requires Doing(image, 0)
      modifies `flash, `log, `failures
      ensures Done(image, 0, rc)
    {
      var refused: bool := *;
      if refused {
        failures := failures + 1;
        assert SaveFails(crc, Last(), Last().(ram := Idle(flashAddr)));
        Step(Last().(ram := Idle(flashAddr)));
        return 1;
      }
      flash := Set(flash, Other(flashAddr), Slot(ERASED_WORD, ERASED_FLAG, blank));
      ghost var t := Advance(Last(), flash).(hist := Last().hist.(next := Some(image), stale := None));
      assert EraseOther(crc, Last(), t);
      Step(t);
      rc := MayFail(image, 1);
    }

    /** An operation that is done, but reports an error all the same. */
    method MayFail(ghost image: Image, ghost k: nat) returns (rc: int)
      requires Doing(image, k) && k < 5
      modifies `log, `failures
      ensures failures == old(failures) + (if rc == 0 then 0 else 1)
      ensures Valid() && (rc == 0 ==> log == old(log)) && (rc != 0 ==> old(log) < log && Last() == old(Last()).(ram := Idle(flashAddr)))
    {
      var fails: bool := *;
      if fails {
        failures := failures + 1;
        assert SaveFails(crc, Last(), Last().(ram := Idle(flashAddr)));
        Step(Last().(ram := Idle(flashAddr)));
        return 1;
      }
      rc := 0;
    }

    /** flash_write of the image, which may stop half done. */
    method WriteImage(image: Image) returns (rc: int)
      requires Doing(image, 1) && Pending(image)
      modifies `flash, `log, `failures
      ensures Done(image, 1, rc)
    {
      var o := Other(flashAddr);
      var fails: bool, torn: Image := *, *;
      if fails {
        failures := failures + 1;
        if crc(torn) != ERASED_WORD {
          flash := Set(flash, o, Get(flash, o).(data := torn));
        }
        ghost var t := Last().(ram := Idle(flashAddr), flash := flash);
        assert SaveFails(crc, Last(), t);
        Step(t);
        return 1;
      }
      flash := Set(flash, o, Get(flash, o).(data := image));
      assert WriteData(Last(), Advance(Last(), flash));
      Step(Advance(Last(), flash));
      rc := 0;
    }

    /** flash_write of the checksum. */
    method WriteSum(image: Image) returns (rc: int)
      requires Doing(image, 2) && Pending(image)
      modifies `flash, `log, `failures
      ensures Done(image, 2, rc)
    {
      var o := Other(flashAddr);
      var fails: bool, torn: int := *, *;
      if fails {
        failures := failures + 1;
        flash := Set(flash, o, Get(flash, o).(crc := torn));
        ghost var t := Last().(ram := Idle(flashAddr), flash := flash);
        TornSum(crc, Last(), torn);
        assert SaveFails(crc, Last(), t);
        Step(t);
        return 1;
      }
      flash := Set(flash, o, Get(flash, o).(crc := crc(image)));
      assert WriteCrc(crc, Last(), Advance(Last(), flash));
      Step(Advance(Last(), flash));
      rc := 0;
    }

    /** flash_write of a flag byte: the old slot's, then the new one's. It may fail, and report an
        error also when it has taken effect. */
    method WriteFlag(ghost image: Image, ghost k: nat, w: Which, flag: int) returns (rc: int)
      requires Doing(image, k) && Pending(image)
      requires (k == 3 && w == flashAddr && flag == OBSOLETE) || (k == 4 && w == Other(flashAddr) && flag == ACTIVE)
      modifies `flash, `log, `failures
      ensures Done(image, k, rc)
    {
      var effect: bool := *;
      if !effect {
        failures := failures + 1;
        assert SaveFails(crc, Last(), Last().(ram := Idle(flashAddr)));
        Step(Last().(ram := Idle(flashAddr)));
        return 1;
      }
      flash := WithFlag(flash, w, flag);
      ghost var t := Advance(Last(), flash);
      assert if k == 3 then MarkOld(Last(), t) else MarkNew(Last(), t);
      Step(t);
      var error: bool := *;
      rc := if error then 1 else 0;
      if error {
        failures := failures + 1;
        assert if k == 3 then SaveFails(crc, t, t.(ram := Idle(flashAddr))) else RestoreFails(t, t.(ram := Idle(flashAddr)));
        Step(t.(ram := Idle(flashAddr)));
      }
    }

    /** The five flash operations of saveenv, up to the first that fails. */
    method Operations(image: Image) returns (rc: int)
      requires Doing(image, 0)
      modifies `flash, `log, `failures
      ensures Valid() && old(log) < log
      ensures rc == 0 ==> Doing(image, 5)
      ensures rc != 0 ==> Last().ram == Idle(flashAddr)
      ensures failures == old(failures) + (if rc == 0 then 0 else 1) && HomeKept()
      ensures Last().hist.prev == old(Last()).hist.prev
      ensures Pending(image) || (rc != 0 && flash == old(flash))
    {
      hide Run, CrcOk;
      rc := Erase(image);
      if rc == 0 { rc := WriteImage(image); }
      if rc == 0 { rc := WriteSum(image); }
      if rc == 0 { rc := WriteFlag(image, 3, flashAddr, OBSOLETE); }
      if rc == 0 { rc := WriteFlag(image, 4, Other(flashAddr), ACTIVE); }
    }

    /** Both slots after a save without a failure: the image in the slot in use, what was there before in
        the other. */
    twostate predicate Swapped(image: Image)
      reads this
    {
      && |log| > 0 && flashAddr == Other(old(flashAddr)) && Last().hist == History(flashAddr, Some(image), None, None)
      && Get(flash, flashAddr) == Slot(crc(image), ACTIVE, image)
      && Get(flash, Other(flashAddr)) == Get(old(flash), old(flashAddr)).(flags := OBSOLETE)
    }

    /** The rest of the sector is written back, and the slots swap roles unless that fails. */
    method Finish(image: Image)
      requires Doing(image, 5)
      modifies `flashAddr, `log, `failures
      ensures Valid() && old(log) < log && Last().ram == Idle(flashAddr) && Loaded(crc, flash) == Some(image)
      ensures failures == old(failures) || failures == old(failures) + 1
      ensures failures == old(failures) ==> Swapped(image)
      ensures failures > old(failures) ==> flashAddr == old(flashAddr)
    {
      hide Run, CrcOk;
      NewOnceChecksummed(crc, log, |log| - 1);
      SavedWhole(crc, log, |log| - 1);
      var restored: bool := *;
      if restored {
        ghost var s := Last().(ram := Idle(Other(flashAddr)), hist := History(Other(flashAddr), Some(image), None, None));
        assert Swap(Last(), s);
        flashAddr := Other(flashAddr);
        Step(s);
      } else {
        failures := failures + 1;
        assert RestoreFails(Last(), Last().(ram := Idle(flashAddr)));
        Step(Last().(ram := Idle(flashAddr)));
      }
    }

    /** saveenv: unless something fails it returns zero and the slots have swapped, the new one holding the
        image. A return of zero means that restarts find the image; it may hide that restoring the rest of
        the sector failed, and then the slots have not swapped. Otherwise something has failed and the slots
        keep their roles; restarts find the image, what the home slot holds, or what they would have
        found before. */
    method Saveenv(image: Image) returns (rc: int)
      requires Valid() && Last().ram == Idle(flashAddr)
      modifies `flash, `flashAddr, `log, `failures
      ensures Valid() && old(log) <= log && Last().ram == Idle(flashAddr)
      ensures rc == 0 ==> Loaded(crc, flash) == Some(image)
      ensures failures == old(failures) ==> rc == 0 && Swapped(image)
      ensures failures == old(failures) || failures == old(failures) + 1
      ensures failures > old(failures) ==> flashAddr == old(flashAddr)
      ensures rc != 0 ==> Loaded(crc, flash) in {old(Loaded(crc, flash)), old(Last()).hist.prev, Some(image)}
    {
      hide Run, Loaded, CrcOk;
      var unprepared: bool := *;   // protection could not be lifted, or no memory for the rest of the sector
      if unprepared {
        failures := failures + 1;
        return 1;
      }
      ghost var s := Last().(ram := Saving(flashAddr, image, 0));
      assert BeginSave(Last(), s);
      Step(s);
      rc := Operations(image);
      if rc == 0 {
        Finish(image);
      } else {
        CrashSafe(crc, log, |log| - 1);
      }
    }

    /** Power goes while nothing is being saved. */
    method PowerOff()
      requires Valid() && Last().ram.Idle?
      modifies `flashAddr, `log
      ensures Valid() && Last().ram == Off && flashAddr == First && old(log) < log
    {
      assert Crash(crc, Last(), Last().(ram := Off));
      flashAddr := First;
      Step(Last().(ram := Off));
    }

    /** env_init and, when it finds an environment, env_relocate_spec: the environment in RAM is what
        the flash held. The repairs do not change what a restart finds, unless marking the other
        slot OBSOLETE failed: then it may be the image of that slot. */
    method Start() returns (env: Option)
      requires Valid() && Last().ram == Off && flashAddr == First
      modifies `flash, `flashAddr, `log, `failures
      ensures Valid() && old(log) < log && Last().ram == Idle(flashAddr)
      ensures env == old(Loaded(crc, flash)) == Last().hist.prev
      ensures old(EnvInit(crc, flash)) == if env.Some? then Use(flashAddr) else Default
      ensures env.None? ==> flash == old(flash) && flashAddr == First
      ensures env.Some? && failures == old(failures) ==>
                flash == ChosenMarked(OtherMarked(crc, old(flash), flashAddr), flashAddr) && Last().hist.stale == None && Loaded(crc, flash) == env
      ensures failures >= old(failures)
      ensures Loaded(crc, flash) == env || (env.Some? && Loaded(crc, flash) == Last().hist.stale != None)
    {
      hide Run;
      CrashSafe(crc, log, |log| - 1);
      var addr := InitAddress();
      if addr == Default {
        assert BootDefault(crc, Last(), Last().(ram := Idle(First), hist := History(First, None, None, None)));
        Step(Last().(ram := Idle(First), hist := History(First, None, None, None)));
        return None;
      }
      assert BootChoose(crc, Last(), Last().(ram := Booting(addr.slot, 0)));
      Step(Last().(ram := Booting(addr.slot, 0)));
      if addr != Use(flashAddr) { flashAddr := Other(flashAddr); }
      RepairSecond();
      env := RepairFirst();
    }

    /** env_init: the value of env_addr. */
    method InitAddress() returns (addr: Choice)
      ensures addr == EnvInit(crc, flash)
    {
      var ok1, ok2 := crc(flash.first.data) == flash.first.crc, crc(flash.second.data) == flash.second.crc;
      var flag1, flag2 := flash.first.flags, flash.second.flags;
      addr := Unset;
      if ok1 && !ok2 {
        addr := Use(First);
      } else if !ok1 && ok2 {
        addr := Use(Second);
      } else if !ok1 && !ok2 {
        addr := Default;
      } else if flag1 == ACTIVE && flag2 == OBSOLETE {
        addr := Use(First);
      } else if flag1 == OBSOLETE && flag2 == ACTIVE {
        addr := Use(Second);
      } else if flag1 == flag2 {
        addr := Use(First);
      } else if flag1 == ERASED_FLAG {
        addr := Use(First);
      } else if flag2 == ERASED_FLAG {
        addr := Use(Second);
      }
    }

    /** A flash_write of a flag whose result is ignored. */
    method MarkSlot(w: Which, flag: int)
      modifies `flash, `failures
      ensures (failures == old(failures) && flash == WithFlag(old(flash), w, flag)) || (failures == old(failures) + 1 && flash == old(flash))
    {
      var effect: bool := *;
      if effect {
        flash := WithFlag(flash, w, flag);
      } else {
        failures := failures + 1;
      }
    }

    /** A valid copy in the other slot that is not marked OBSOLETE gets marked. */
    method RepairSecond()
      requires Valid() && Last().ram == Booting(flashAddr, 0)
      modifies `flash, `log, `failures
      ensures Valid() && old(log) < log && Last().ram == Booting(flashAddr, 1) && Loaded(crc, flash) == old(Loaded(crc, flash))
      ensures failures >= old(failures)
      ensures failures == old(failures) ==> flash == OtherMarked(crc, old(flash), flashAddr)
    {
      hide Run;
      var o := Other(flashAddr);
      ghost var s := Last();
      if Get(flash, o).flags != OBSOLETE && crc(Get(flash, o).data) == Get(flash, o).crc {
        MarkSlot(o, OBSOLETE);
      }
      ghost var t := s.(flash := flash, ram := Booting(flashAddr, 1));
      assert RepairOther(crc, s, t);
      Step(t);
      RepairKeepsChoice(crc, log, |log| - 2);
    }

    /** The chosen copy gets marked ACTIVE if that only clears bits, and is read. */
    method RepairFirst() returns (env: Option)
      requires Valid() && Last().ram == Booting(flashAddr, 1)
      modifies `flash, `log, `failures
      ensures Valid() && old(log) < log && Last().ram == Idle(flashAddr)
      ensures env == old(Loaded(crc, flash)) == Last().hist.prev != None
      ensures failures >= old(failures)
      ensures failures == old(failures) ==> flash == ChosenMarked(old(flash), flashAddr)
      ensures Last().hist.stale == Left(crc, old(flash), Other(flashAddr))
      ensures if Undone(crc, old(Last()), Last()) then Loaded(crc, flash) == Last().hist.stale != None else Loaded(crc, flash) == env
    {
      hide Run;
      ghost var s := Last();
      var flags := Get(flash, flashAddr).flags;
      if flags != ACTIVE && flags % 2 == 1 {
        MarkSlot(flashAddr, ACTIVE);
      }
      env := Some(Get(flash, flashAddr).data);
      ghost var t := State(flash, Idle(flashAddr), History(flashAddr, env, None, Left(crc, s.flash, Other(flashAddr))));
      assert RepairActive(crc, s, t);
      Step(t);
      RepairKeepsChoice(crc, log, |log| - 2);
    }
  }

  /** The repairs of env_relocate_spec, where both take effect. */
  function OtherMarked(crc: Checksum, f: Flash, a: Which): Flash
  {
    if Offered(crc, f, Other(a)) then WithFlag(f, Other(a), OBSOLETE) else f
  }

  function ChosenMarked(f: Flash, a: Which): Flash
  {
    if Markable(f, a) then WithFlag(f, a, ACTIVE) else f
  }

  /** When all operations of a save are done, the other slot is all written and the old one marked. */
  lemma SavedWhole(crc: Checksum, r: seq<State>, i: nat)
    requires Run(crc, r) && i < |r| && r[i].ram.Saving? && r[i].ram.stage == 5
    ensures Get(r[i].flash, Target(r[i])) == Slot(crc(r[i].ram.image), ACTIVE, r[i].ram.image) && Get(r[i].flash, r[i].ram.active).flags == OBSOLETE
  {
    RunOk(crc, r, i);
  }

  lemma TornSum(crc: Checksum, s: State, c: int)
    requires s.ram.Saving? && s.ram.stage == 2
    ensures Torn(crc, s, Set(s.flash, Target(s), Get(s.flash, Target(s)).(crc := c)))
  {
  }

  /** Power lost at any moment of what a driver has done, in the middle of an operation too: a
      restart finds the previous environment, all of the one being saved, or one that a failed repair
      left behind. */
  lemma PowerLossAnywhere(crc: Checksum, r: seq<State>, i: nat, t: State)
    requires Run(crc, r) && i < |r| && Crash(crc, r[i], t)
    ensures Run(crc, r[..i + 1] + [t]) && Safe(crc, t)
  {
    var q := r[..i + 1] + [t];
    hide Crash;
    forall j | 0 <= j < |q| - 1 ensures Next(crc, q[j], q[j + 1])
    {
      if j < i {
        assert Next(crc, r[j], r[j + 1]);
      } else {
        assert Next(crc, r[i], t);
      }
    }
    CrashSafe(crc, q, |q| - 1);
  }
}
