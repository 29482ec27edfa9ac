/**
 The write-behind excluded flag (daemon/statefile.c): sf_set_excluded changes the flag in memory and raises
 a bit of modified_mask; the state-file thread writes it out later, and its read cycles copy the slot on
 disk back into memory unless the bit is up. Every step below runs under one lock section or is one disk
 access of the thread, so a run is any interleaving of sf_set_excluded with the cycles of the thread.
 */
module ExcludedFlag {
  import opened Wrappers

  /**
   Where the state-file thread is: before its cycle, in the write (`pending` is excluded_pending_write), behind it, or
   in the read that follows (`fetched`: the own section was read).
   */
  datatype Phase = Idle | Writing(pending: bool) | Written | Reading(fetched: bool)

  /** `disk` is None when the slot on disk does not pass validation. */
  datatype State = State(mask: bool, flag: bool, buffer: bool, disk: Option<bool>, readOnce: bool, phase: Phase)

  /**
   What a write leaves in the slot: the new section, the section that was there, or neither. A write that was cut short
   counts as a success, because sf_write only looks for a negative result.
   */
  datatype Landing = New | Old | Torn

  datatype Action =
    | SetExcluded(value: bool)
    | BeginWrite
    | SkipWrite
    | EndWrite(landing: Landing, success: bool)
    | BeginRead
    | FetchOwn(success: bool, scribble: bool)
    | EndRead(success: bool, pendingGlobal: bool)

  predicate Enabled(s: State, a: Action) {
    match a
    case SetExcluded(_) => true
    case BeginWrite => s.phase.Idle? && s.readOnce
    case EndWrite(landing, success) => s.phase.Writing? && (success ==> !landing.Old?)
    case SkipWrite => s.phase.Idle? && !s.readOnce
    case BeginRead => s.phase.Written?
    case FetchOwn(success, _) => s.phase == Reading(false) && (success ==> s.disk.Some?)
    case EndRead(success, _) => s.phase.Reading? && (success ==> s.phase.fetched)
  }

  function After(s: State, a: Action): State
    requires Enabled(s, a)
  {
    match a
    case SetExcluded(v) => s.(mask := true, flag := v)
    case BeginWrite => s.(mask := false, buffer := s.flag, phase := Writing(s.mask))
    case EndWrite(landing, success) =>
      s.(disk := Landed(s, landing), mask := s.mask || (!success && s.phase.pending), phase := Written)
    case SkipWrite => s.(phase := Written)
    case BeginRead => s.(phase := Reading(false))
    case FetchOwn(success, scribble) =>
      s.(buffer := if success then s.disk.value else scribble, phase := Reading(success))
    case EndRead(success, pendingGlobal) =>
      s.(flag := if success && !s.mask then s.buffer else s.flag,
         readOnce := success && (s.readOnce || !pendingGlobal),
         phase := Idle)
  }

  function Landed(s: State, landing: Landing): Option<bool> {
    match landing
    case New => Some(s.buffer)
    case Old => s.disk
    case Torn => None
  }

  /** The fields of the COM_DATA_SF object and of the state-file thread, updated in place. */
  class StateFileThread {
    var mask: bool            // modified_mask & SF_MODIFIED_MASK_EXCLUDED
    var flag: bool            // the own bit of psf->excluded
    var buffer: bool          // StateFile.host[_my_index].data.excluded
    var disk: Option<bool>    // the same field of the slot on disk
    var readOnce: bool
    var phase: Phase

    ghost function Abs(): State
      reads this
    {
      State(mask, flag, buffer, disk, readOnce, phase)
    }

    /** The daemon starts with the flag down; the slot holds whatever an earlier run left in it. */
    constructor (slot: Option<bool>)
      ensures Abs() == Boot(slot)
    {
      mask, flag, buffer, disk, readOnce, phase := false, false, false, slot, false, Idle;
    }

    /** sf_set_excluded */
    method SetExcluded(value: bool)
      modifies this
      ensures Abs() == After(old(Abs()), Action.SetExcluded(value))
    {
      mask := true;
      flag := value;
    }

    /** The lock section of write_hostspecific. */
    method BeginWrite()
      requires phase.Idle? && readOnce
      modifies this
      ensures Abs() == After(old(Abs()), Action.BeginWrite)
    {
      var pending := mask;
      mask := false;
      buffer := flag;
      phase := Writing(pending);
    }

    /** The disk write of write_hostspecific and what follows it. */
    method EndWrite(landing: Landing, success: bool)
      requires phase.Writing? && (success ==> !landing.Old?)
      modifies this
      ensures Abs() == After(old(Abs()), Action.EndWrite(landing, success))
    {
      match landing {
        case New => disk := Some(buffer);
        case Old =>
        case Torn => disk := None;
      }
      if !success {
        if phase.pending {
          mask := true;
        }
      }
      phase := Written;
    }

    /** Before the first successful read, and after a failed one, the thread does not write. */
    method SkipWrite()
      requires phase.Idle? && !readOnce
      modifies this
      ensures Abs() == After(old(Abs()), Action.SkipWrite)
    {
      phase := Written;
    }

    method BeginRead()
      requires phase.Written?
      modifies this
      ensures Abs() == After(old(Abs()), Action.BeginRead)
    {
      phase := Reading(false);
    }

    /** One attempt of readsf at the own section; a failed one may leave anything in the buffer. */
    method FetchOwn(success: bool, scribble: bool)
      requires phase == Reading(false) && (success ==> disk.Some?)
      modifies this
      ensures Abs() == After(old(Abs()), Action.FetchOwn(success, scribble))
    {
      if success {
        buffer := disk.value;
        phase := Reading(true);
      } else {
        buffer := scribble;
      }
    }

    /** The lock section of readsf, and what sfthread does with its status. */
    method EndRead(success: bool, pendingGlobal: bool)
      requires phase.Reading? && (success ==> phase.fetched)
      modifies this
      ensures Abs() == After(old(Abs()), Action.EndRead(success, pendingGlobal))
    {
      if success {
        if !mask {
          flag := buffer;
        }
        if !pendingGlobal {
          readOnce := true;
        }
      } else {
        readOnce := false;
      }
      phase := Idle;
    }
  }

  // ---------------------------------------------------------------- no update is lost

  function Boot(slot: Option<bool>): State {
    State(false, false, false, slot, false, Idle)
  }

  ghost predicate Runs(s: State, run: seq<Action>, t: State)
    decreases |run|
  {
    if run == [] then s == t else Enabled(s, run[0]) && Runs(After(s, run[0]), run[1..], t)
  }

  /** The value of the last sf_set_excluded of a run, or what was there before. */
  function LastSet(run: seq<Action>, before: Option<bool>): Option<bool> {
    if run == [] then before else LastSet(run[1..], Noted(run[0], before))
  }

  function Noted(a: Action, before: Option<bool>): Option<bool> {
    if a.SetExcluded? then Some(a.value) else before
  }

  /** The slot holds the flag, or will be written again, or cannot be read. */
  predicate SlotIsSafe(s: State) {
    s.mask || s.disk == None || s.disk == Some(s.flag)
  }

  ghost predicate Inv(s: State, last: Option<bool>) {
    && (last.Some? ==> s.flag == last.value)
    && match s.phase
       case Idle => last.Some? || s.readOnce ==> SlotIsSafe(s)
       case Written => last.Some? || s.readOnce ==> SlotIsSafe(s)
       case Reading(fetched) =>
         (last.Some? || s.readOnce ==> SlotIsSafe(s)) && (fetched ==> s.disk == Some(s.buffer))
       case Writing(pending) =>
         (s.mask || s.buffer == s.flag) && (pending || s.disk == None || s.disk == Some(s.buffer))
  }

  lemma StepKeepsInv(s: State, a: Action, last: Option<bool>)
    requires Inv(s, last) && Enabled(s, a)
    ensures Inv(After(s, a), Noted(a, last))
  {
  }

  lemma {:induction false} RunKeepsInv(s: State, run: seq<Action>, t: State, last: Option<bool>)
    requires Inv(s, last) && Runs(s, run, t)
    ensures Inv(t, LastSet(run, last))
    decreases |run|
  {
    if run != [] {
      StepKeepsInv(s, run[0], last);
      RunKeepsInv(After(s, run[0]), run[1..], t, Noted(run[0], last));
    }
  }

  /**
   In every run, with any failures, the flag in memory is the last value set; and outside a write the slot
   on disk holds that value too, unless it is still to be written or cannot be read at all.
   */
  lemma NoUpdateIsLost(slot: Option<bool>, run: seq<Action>, t: State)
    requires Runs(Boot(slot), run, t) && LastSet(run, None).Some?
    ensures t.flag == LastSet(run, None).value
    ensures !t.phase.Writing? && !t.mask ==> t.disk == None || t.disk == LastSet(run, None)
  {
    RunKeepsInv(Boot(slot), run, t, None);
  }

  /** A write cycle that succeeds carries the last value set before it to the disk, and clears the mask. */
  lemma SuccessfulWriteStoresLastSet(slot: Option<bool>, run: seq<Action>, s: State, between: seq<Action>, t: State)
    requires Runs(Boot(slot), run, s) && LastSet(run, None).Some? && Enabled(s, BeginWrite)
    requires Runs(After(s, BeginWrite), between, t) && t.phase.Writing?
    requires forall a :: a in between ==> a.SetExcluded?
    ensures var u := After(t, EndWrite(New, true));
      && u.disk == LastSet(run, None)
      && u.mask == (between != [])
      && (between == [] ==> u.flag == LastSet(run, None).value)
  {
    RunKeepsInv(Boot(slot), run, s, None);
    SetsOnlyRaise(After(s, BeginWrite), between, t);
  }

  /** A write cycle that fails leaves the mask as it was before it, or up if the flag was set meanwhile. */
  lemma FailedWriteRestoresMask(s: State, between: seq<Action>, t: State, landing: Landing)
    requires Enabled(s, BeginWrite) && Runs(After(s, BeginWrite), between, t) && t.phase.Writing?
    requires forall a :: a in between ==> a.SetExcluded?
    ensures var u := After(t, EndWrite(landing, false));
      && u.mask == (s.mask || between != [])
      && (landing.Old? ==> u.disk == s.disk)
      && (between == [] ==> u.flag == s.flag)
  {
    SetsOnlyRaise(After(s, BeginWrite), between, t);
  }

  lemma {:induction false} SetsOnlyRaise(s: State, run: seq<Action>, t: State)
    requires Runs(s, run, t) && forall a :: a in run ==> a.SetExcluded?
    ensures t.buffer == s.buffer && t.phase == s.phase && t.disk == s.disk
    ensures t.mask == (s.mask || run != [])
    ensures run == [] ==> t == s
    decreases |run|
  {
    if run != [] {
      SetsOnlyRaise(After(s, run[0]), run[1..], t);
    }
  }

  // ---------------------------------------------------------------- no write before a clean read

  /** A cycle of reads that ended well, with no new global section waiting. */
  predicate CleanRead(a: Action) {
    a == EndRead(true, false)
  }

  /** From a state that may not write, the thread comes to write only through a clean read. */
  lemma {:induction false} WritesOnlyAfterCleanRead(s: State, run: seq<Action>, t: State)
    requires Runs(s, run, t) && !s.readOnce && !s.phase.Writing? && (t.readOnce || t.phase.Writing?)
    ensures exists a :: a in run && CleanRead(a)
    decreases |run|
  {
    if !CleanRead(run[0]) {
      WritesOnlyAfterCleanRead(After(s, run[0]), run[1..], t);
      var a :| a in run[1..] && CleanRead(a);
      assert a in run;
    } else {
      assert run[0] in run;
    }
  }

  /** A failed read takes the permission back, a later one that finds a global section waiting leaves it as it is. */
  lemma ReadsDecideOnWrites(s: State, success: bool, pendingGlobal: bool)
    requires Enabled(s, EndRead(success, pendingGlobal))
    ensures var t := After(s, EndRead(success, pendingGlobal));
      && (!success ==> !Enabled(t, BeginWrite))
      && (success && !pendingGlobal ==> Enabled(t, BeginWrite))
      && (success && pendingGlobal ==> (Enabled(t, BeginWrite) <==> s.readOnce))
  {
  }

  // ---------------------------------------------------------------- an unreadable slot

  /** The own slot cannot be read, and the thread has not read it since. */
  predicate Silenced(s: State) {
    && s.disk == None
    && match s.phase
       case Idle => !s.readOnce
       case Writing(_) => false
       case Written => true
       case Reading(fetched) => !fetched
  }

  lemma {:induction false} StaysSilenced(s: State, run: seq<Action>, t: State)
    requires Silenced(s) && Runs(s, run, t)
    ensures Silenced(t)
    decreases |run|
  {
    if run != [] {
      StaysSilenced(After(s, run[0]), run[1..], t);
    }
  }

  /**
   After a torn write, whether it was reported or not, the host never writes its slot again, so no later value, nor the
   one torn, ever reaches the disk.
   */
  lemma TornWriteIsFinal(s: State, success: bool, run: seq<Action>, t: State)
    requires s.phase.Writing? && Runs(After(s, EndWrite(Torn, success)), run, t)
    ensures t.disk == None && !Enabled(t, BeginWrite) && !t.phase.Writing?
  {
    StaysSilenced(After(s, EndWrite(Torn, success)), run, t);
  }

  /** A run after which the thread is about to write. */
  ghost predicate WritesAfter(s: State, run: seq<Action>, t: State) {
    Runs(s, run, t) && Enabled(t, BeginWrite)
  }

  lemma ReadsAndWrites(s: State) returns (run: seq<Action>, t: State)
    requires s.phase.Written? && s.disk.Some?
    ensures WritesAfter(s, run, t)
  {
    var s1 := After(s, BeginRead);
    var s2 := After(s1, FetchOwn(true, false));
    t := After(s2, EndRead(true, false));
    run := [EndRead(true, false)];
    assert Runs(t, run[1..], t);
    assert Runs(s2, run, t);
    run := [FetchOwn(true, false)] + run;
    assert Runs(s1, run, t);
    run := [BeginRead] + run;
  }

  /** Behind the write part of a cycle, the thread can ever write again if and only if the own slot can be read. */
  lemma WritesAgainIffReadable(s: State)
    requires s.phase.Written?
    ensures (exists run, t :: WritesAfter(s, run, t)) <==> s.disk.Some?
  {
    if s.disk.Some? {
      var run, t := ReadsAndWrites(s);
    } else if run, t :| WritesAfter(s, run, t) {
      StaysSilenced(s, run, t);
      assert false;
    }
  }
}
