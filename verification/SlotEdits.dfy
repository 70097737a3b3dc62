/**
 Editing a tariff's slots (backend/routers/cpo/_tariffs.py): the overlap check reads the slots
 without a lock, and the write follows later, so edits can interleave between the two.
 */
module SlotEdits {
  import opened Tariffs

  /** An edit that has passed its check: a new slot, or new columns for the row `of`. */
  datatype Phase = Idle | Checked(slot: Slot, of: Option<nat>)

  /** A tariff's slot rows, deleted ones None, and the edits in flight. */
  datatype State = State(rows: seq<Option<Slot>>, requests: seq<Phase>)

  datatype Step = Check(t: nat, slot: Slot, of: Option<nat>) | Write(t: nat) | Delete(row: nat)

  predicate Conflict(rows: seq<Option<Slot>>, slot: Slot, of: Option<nat>, j: nat) {
    j < |rows| && rows[j].Some? && of != Some(j) && SlotOverlaps(slot, rows[j].value)
  }

  predicate Clear(rows: seq<Option<Slot>>, slot: Slot, of: Option<nat>) {
    forall j :: 0 <= j < |rows| ==> !Conflict(rows, slot, of, j)
  }

  predicate Present(rows: seq<Option<Slot>>, of: Option<nat>) {
    of.Some? ==> of.value < |rows| && rows[of.value].Some?
  }

  function Written(rows: seq<Option<Slot>>, slot: Slot, of: Option<nat>): seq<Option<Slot>> {
    if of.None? then rows + [Some(slot)]
    else if of.value < |rows| && rows[of.value].Some? then rows[of.value := Some(slot)]
    else rows
  }

  function Next(s: State, step: Step): State {
    match step
    case Check(t, slot, of) =>
      if t < |s.requests| && s.requests[t].Idle? && WellFormed(slot) && Present(s.rows, of) && Clear(s.rows, slot, of)
      then s.(requests := s.requests[t := Checked(slot, of)]) else s
    case Write(t) =>
      if t < |s.requests| && s.requests[t].Checked?
      then State(Written(s.rows, s.requests[t].slot, s.requests[t].of), s.requests[t := Idle]) else s
    case Delete(i) =>
      if i < |s.rows| then s.(rows := s.rows[i := None]) else s
  }

  function Run(s: State, steps: seq<Step>): State {
    if steps == [] then s else Next(Run(s, steps[..|steps| - 1]), steps[|steps| - 1])
  }

  predicate Clash(rows: seq<Option<Slot>>, i: nat, j: nat) {
    && i < |rows| && j < |rows| && i != j && rows[i].Some? && rows[j].Some?
    && SlotOverlaps(rows[i].value, rows[j].value)
  }

  /** Well-formed rows, no two of them in conflict. */
  ghost predicate Apart(rows: seq<Option<Slot>>) {
    && (forall i :: 0 <= i < |rows| && rows[i].Some? ==> WellFormed(rows[i].value))
    && forall i, j :: !Clash(rows, i, j)
  }

  ghost predicate Sound(s: State) {
    && Apart(s.rows)
    && forall t :: 0 <= t < |s.requests| && s.requests[t].Checked? ==> WellFormed(s.requests[t].slot)
  }

  function SlotsIn(rows: seq<Option<Slot>>): seq<Slot> {
    if rows == [] then [] else
    var last := rows[|rows| - 1];
    SlotsIn(rows[..|rows| - 1]) + if last.Some? then [last.value] else []
  }

  lemma {:induction false} SlotsInIsRows(rows: seq<Option<Slot>>)
    ensures forall s :: s in SlotsIn(rows) ==> exists i :: 0 <= i < |rows| && rows[i] == Some(s)
  {
    if rows != [] {
      var n := |rows| - 1;
      SlotsInIsRows(rows[..n]);
      forall s | s in SlotsIn(rows) ensures exists i :: 0 <= i < |rows| && rows[i] == Some(s) {
        if s in SlotsIn(rows[..n]) {
          var i :| 0 <= i < n && rows[..n][i] == Some(s);
          assert rows[i] == Some(s);
        } else {
          assert rows[n] == Some(s);
        }
      }
    }
  }

  /** Such rows are what the resolver's theorems ask for, in whatever order they are read. */
  lemma ApartIsNoConflicts(rows: seq<Option<Slot>>)
    requires Apart(rows)
    ensures NoConflicts(SlotsIn(rows)) && forall s :: s in SlotsIn(rows) ==> WellFormed(s)
  {
    SlotsInIsRows(rows);
    forall a, b | a in SlotsIn(rows) && b in SlotsIn(rows) && a != b ensures !SlotOverlaps(a, b) {
      var i :| 0 <= i < |rows| && rows[i] == Some(a);
      var j :| 0 <= j < |rows| && rows[j] == Some(b);
      assert !Clash(rows, i, j);
    }
  }

  /** A write keeps the rows apart exactly when its check would still pass as it lands, or its row is gone. */
  lemma WriteIff(s: State, t: nat)
    requires Sound(s) && t < |s.requests| && s.requests[t].Checked?
    ensures Sound(Next(s, Write(t))) <==>
              !Present(s.rows, s.requests[t].of) || Clear(s.rows, s.requests[t].slot, s.requests[t].of)
  {
    var slot, of, next := s.requests[t].slot, s.requests[t].of, Next(s, Write(t)).rows;
    var here := if of.Some? then of.value else |s.rows|;
    if Present(s.rows, of) {
      forall j: nat ensures Conflict(s.rows, slot, of, j) == Clash(next, here, j) {
      }
      if Clear(s.rows, slot, of) {
        forall i: nat, j: nat ensures !Clash(next, i, j) {
          ClashBothWays(next, i, j);
          assert !Conflict(s.rows, slot, of, j) && !Conflict(s.rows, slot, of, i);
          assert i != here && j != here ==> Clash(next, i, j) == Clash(s.rows, i, j);
        }
      } else {
        var j: nat :| j < |s.rows| && Conflict(s.rows, slot, of, j);
        assert Clash(next, here, j);
      }
    }
  }

  lemma ClashBothWays(rows: seq<Option<Slot>>, i: nat, j: nat)
    ensures Clash(rows, i, j) == Clash(rows, j, i)
  {
    if i < |rows| && j < |rows| && rows[i].Some? && rows[j].Some? {
      assert rows[i].value.days * rows[j].value.days == rows[j].value.days * rows[i].value.days;
    }
  }

  predicate StillClear(s: State, step: Step) {
    step.Write? && step.t < |s.requests| && s.requests[step.t].Checked? && Present(s.rows, s.requests[step.t].of) ==>
      Clear(s.rows, s.requests[step.t].slot, s.requests[step.t].of)
  }

  /** Over every run of checks, writes and deletes whose writes are still clear, the rows stay apart. */
  lemma {:induction false} RowsStayApart(s: State, steps: seq<Step>)
    requires Sound(s) && forall k :: 0 <= k < |steps| ==> StillClear(Run(s, steps[..k]), steps[k])
    ensures Sound(Run(s, steps))
  {
    if steps != [] {
      var n := |steps| - 1;
      forall k | 0 <= k < n ensures StillClear(Run(s, steps[..n][..k]), steps[..n][k]) {
        assert steps[..n][..k] == steps[..k];
        assert StillClear(Run(s, steps[..k]), steps[k]);
      }
      RowsStayApart(s, steps[..n]);
      assert StillClear(Run(s, steps[..n]), steps[n]);
      StepStaysSound(Run(s, steps[..n]), steps[n]);
    }
  }

  lemma StepStaysSound(s: State, step: Step)
    requires Sound(s) && StillClear(s, step)
    ensures Sound(Next(s, step))
  {
    if step.Write? && step.t < |s.requests| && s.requests[step.t].Checked? {
      WriteIff(s, step.t);
    } else {
      forall i: nat, j: nat | Clash(Next(s, step).rows, i, j) ensures Clash(s.rows, i, j) {
      }
    }
  }

  /** No check passes while another edit waits to be written. */
  predicate OneAtATime(s: State, step: Step) {
    step.Check? ==> forall u :: 0 <= u < |s.requests| ==> s.requests[u].Idle?
  }

  predicate Waiting(s: State, t: nat) {
    t < |s.requests| && s.requests[t].Checked?
  }

  ghost predicate AllClear(s: State) {
    && Sound(s)
    && (forall t: nat :: Waiting(s, t) ==> Clear(s.rows, s.requests[t].slot, s.requests[t].of))
    && forall t: nat, u: nat :: Waiting(s, t) && Waiting(s, u) ==> t == u
  }

  /** Edits made one at a time always are, so they keep the rows apart. */
  lemma {:induction false} OneAtATimeStaysApart(s: State, steps: seq<Step>)
    requires AllClear(s) && forall k :: 0 <= k < |steps| ==> OneAtATime(Run(s, steps[..k]), steps[k])
    ensures AllClear(Run(s, steps))
  {
    if steps != [] {
      var n := |steps| - 1;
      forall k | 0 <= k < n ensures OneAtATime(Run(s, steps[..n][..k]), steps[..n][k]) {
        assert steps[..n][..k] == steps[..k];
        assert OneAtATime(Run(s, steps[..k]), steps[k]);
      }
      OneAtATimeStaysApart(s, steps[..n]);
      assert OneAtATime(Run(s, steps[..n]), steps[n]);
      StepStaysClear(Run(s, steps[..n]), steps[n]);
    }
  }

  lemma StepStaysClear(s: State, step: Step)
    requires AllClear(s) && OneAtATime(s, step)
    ensures AllClear(Next(s, step))
  {
    var next := Next(s, step);
    assert step.Write? && Waiting(s, step.t) ==> StillClear(s, step);
    StepStaysSound(s, step);
    forall u: nat | Waiting(next, u)
      ensures if Waiting(s, u) then next.requests[u] == s.requests[u] else step.Check? && step.t == u
    {
    }
    forall u: nat | Waiting(next, u) ensures Clear(next.rows, next.requests[u].slot, next.requests[u].of) {
      if step.Delete? {
        ClearAfterDelete(s.rows, step.row, s.requests[u].slot, s.requests[u].of);
      }
    }
    forall t: nat, u: nat | Waiting(next, t) && Waiting(next, u) ensures t == u {
      if step.Check? && next != s {
        assert s.requests[t].Idle? && s.requests[u].Idle?;
      } else {
        assert Waiting(s, t) && Waiting(s, u);
      }
    }
  }

  lemma ClearAfterDelete(rows: seq<Option<Slot>>, i: nat, slot: Slot, of: Option<nat>)
    requires Clear(rows, slot, of)
    ensures Clear(if i < |rows| then rows[i := None] else rows, slot, of)
  {
    if i < |rows| {
      var left := rows[i := None];
      forall j | 0 <= j < |left| ensures !Conflict(left, slot, of, j) {
        assert !Conflict(rows, slot, of, j);
      }
    }
  }

  /** Two creates that check before either writes both pass, and leave two rows in conflict. */
  lemma BothCreatesPass(s: State, t: nat, u: nat, a: Slot, b: Slot)
    requires t < |s.requests| && u < |s.requests| && t != u && s.requests[t].Idle? && s.requests[u].Idle?
    requires WellFormed(a) && WellFormed(b) && Clear(s.rows, a, None) && Clear(s.rows, b, None) && SlotOverlaps(a, b)
    ensures var after := Next(Next(Next(Next(s, Check(t, a, None)), Check(u, b, None)), Write(t)), Write(u));
            after.rows == s.rows + [Some(a), Some(b)] && !Apart(after.rows)
  {
    var after := Next(Next(Next(Next(s, Check(t, a, None)), Check(u, b, None)), Write(t)), Write(u));
    assert after.rows == s.rows + [Some(a), Some(b)];
    assert Clash(after.rows, |s.rows|, |s.rows| + 1);
  }

  /** An edit that meets no other: a create adds its slot and an update replaces its row, when nothing overlaps. */
  lemma EditIff(s: State, t: nat, slot: Slot, of: Option<nat>)
    requires t < |s.requests| && s.requests[t].Idle? && WellFormed(slot)
    requires of.Some? ==> of.value < |s.rows| && s.rows[of.value].Some?
    ensures var after := Next(Next(s, Check(t, slot, of)), Write(t)).rows;
            var clear := forall j :: 0 <= j < |s.rows| && s.rows[j].Some? && of != Some(j) ==>
                           !SlotOverlaps(slot, s.rows[j].value);
            after == if !clear then s.rows
                     else if of.None? then s.rows + [Some(slot)] else s.rows[of.value := Some(slot)]
  {
    assert Clear(s.rows, slot, of) <==>
           forall j :: 0 <= j < |s.rows| && s.rows[j].Some? && of != Some(j) ==>
             !SlotOverlaps(slot, s.rows[j].value) by {
      forall j: nat | j < |s.rows|
        ensures Conflict(s.rows, slot, of, j) <==>
                  s.rows[j].Some? && of != Some(j) && SlotOverlaps(slot, s.rows[j].value)
      {
      }
    }
  }

  /** A request under way starts no other edit, and there is no update of a row that is gone. */
  lemma NothingToCheck(s: State, t: nat, slot: Slot, of: Option<nat>)
    requires t < |s.requests|
    requires !s.requests[t].Idle? || (of.Some? && (of.value >= |s.rows| || s.rows[of.value].None?))
    ensures Next(s, Check(t, slot, of)) == s
  {
  }

  /** A delete empties its row and no other. */
  lemma DeleteDeletes(s: State, i: nat)
    requires i < |s.rows|
    ensures Next(s, Delete(i)) == s.(rows := s.rows[i := None])
  {
  }
}
