/** Reminder scheduling (frontend/src/utils/notifications.js): the module-level map
    from note id to pending timer, `scheduleNotification`, the timer callback and
    `scheduleAllNotifications`.

    Timers are modelled explicitly: `setTimeout` hands out the next timer number and
    records the callback it will run, `clearTimeout` forgets it, and the browser
    running a callback is the method `Fire`. Times are integer milliseconds;
    `Date.now()` is the parameter `now`, and `new Date(reminderDate).getTime()` is the
    parameter `parseTime`, `None` standing for an invalid date (whose delay, NaN,
    fails both comparisons). */
module Notifications {
  import opened Wrappers
  import opened Queries

  /** The fields of a note the scheduler reads. */
  datatype ReminderNote = ReminderNote(id: string, title: string, content: string, reminderDate: Option<string>, isDeleted: bool)

  /** The arguments of `showNotification`. */
  datatype Alert = Alert(title: string, body: string, tag: string)

  /** A pending `setTimeout` callback: the note it is for, its delay and what it shows. */
  datatype Timer = Timer(noteId: string, delay: int, alert: Alert)

  /** `scheduledTimers` together with the browser's pending callbacks. */
  datatype TimerState = TimerState(timers: map<string, nat>, pending: map<nat, Timer>, nextTimer: nat)

  /** 24 hours in milliseconds. */
  const Day := 24 * 60 * 60 * 1000

  /** The longest body shown before the ellipsis. */
  const BodyLimit := 100

  /** A delay that gets a timer: in the future and less than a day away. */
  predicate InWindow(delay: int) {
    0 < delay < Day
  }

  /** `content.substring(0, 100) + (content.length > 100 ? '...' : '')`. */
  function Body(content: string): (r: string)
    ensures |content| <= BodyLimit ==> r == content
    ensures |content| > BodyLimit ==> |r| == BodyLimit + 3 && r[..BodyLimit] == content[..BodyLimit] && r[BodyLimit..] == "..."
    ensures |r| <= BodyLimit + 3
  {
    if |content| > BodyLimit then content[..BodyLimit] + "..." else content
  }

  /** What every notification title starts with: the bell emoji, a space and "Reminder: ". */
  const TitlePrefix := "\U{1F514} Reminder: "

  /** The prefix followed by the note's title. */
  function Title(title: string): (r: string)
    ensures |r| == |TitlePrefix| + |title| && r[..|TitlePrefix|] == TitlePrefix && r[|TitlePrefix|..] == title
  {
    TitlePrefix + title
  }

  function Tag(id: string): (r: string)
    ensures |r| == |id| + 5 && r[..5] == "note-" && r[5..] == id
  {
    "note-" + id
  }

  /** The arguments the timer callback passes to `showNotification`: the note's title
      after the prefix, at most 103 characters of its content, and its tag. */
  function AlertFor(note: ReminderNote): (a: Alert)
    ensures |a.title| >= |TitlePrefix| && a.title[|TitlePrefix|..] == note.title && |a.body| <= BodyLimit + 3
    ensures a.body <= note.content || (|a.body| == BodyLimit + 3 && a.body[..BodyLimit] <= note.content)
    ensures |a.tag| >= 5 && a.tag[5..] == note.id
  {
    Alert(Title(note.title), Body(note.content), Tag(note.id))
  }

  /** Different notes get different tags. */
  lemma TagsDistinguishNotes(a: string, b: string)
    ensures Tag(a) == Tag(b) <==> a == b
  {
    if Tag(a) == Tag(b) {
      assert a == Tag(a)[5..];
    }
  }

  /** At most one timer per note: the map and the pending callbacks correspond one to
      one, and every timer number handed out is below `nextTimer`. */
  predicate Consistent(st: TimerState) {
    && (forall id :: id in st.timers ==> st.timers[id] in st.pending && st.pending[st.timers[id]].noteId == id)
    && (forall t :: t in st.pending ==> st.pending[t].noteId in st.timers && st.timers[st.pending[t].noteId] == t)
    && (forall t :: t in st.pending ==> t < st.nextTimer)
  }

  /** `clearTimeout(scheduledTimers.get(id)); scheduledTimers.delete(id)` when present. */
  function Cleared(st: TimerState, id: string): TimerState {
    if id in st.timers then TimerState(st.timers - {id}, st.pending - {st.timers[id]}, st.nextTimer) else st
  }

  /** The early return of `scheduleNotification`: no reminder, or a deleted note. */
  predicate Skipped(note: ReminderNote) {
    !Truthy(note.reminderDate) || note.isDeleted
  }

  /** `scheduleNotification(note)` at time `now`, on the state as a value. */
  function Schedule(st: TimerState, note: ReminderNote, now: int, parseTime: string -> Option<int>): (r: TimerState)
    ensures Skipped(note) ==> r == st
    ensures r.timers.Keys <= st.timers.Keys + {note.id}
    ensures st.nextTimer <= r.nextTimer <= st.nextTimer + 1
  {
    if Skipped(note) then st
    else
      var cleared := Cleared(st, note.id);
      var due := parseTime(note.reminderDate.value);
      if due.Some? && InWindow(due.value - now) then
        TimerState(cleared.timers[note.id := st.nextTimer],
                   cleared.pending[st.nextTimer := Timer(note.id, due.value - now, AlertFor(note))],
                   st.nextTimer + 1)
      else cleared
  }

  /** Scheduling keeps at most one timer per note. */
  lemma ScheduleKeepsConsistent(st: TimerState, note: ReminderNote, now: int, parseTime: string -> Option<int>)
    requires Consistent(st)
    ensures Consistent(Schedule(st, note, now, parseTime))
  {
    var r := Schedule(st, note, now, parseTime);
    if !Skipped(note) {
      var cleared := Cleared(st, note.id);
      assert Consistent(cleared);
      assert st.nextTimer !in cleared.pending;
    }
  }

  /** What `scheduleNotification` does to the note's own entry: nothing on the early
      return; otherwise the note ends with a fresh timer exactly when its delay is in
      the window, any earlier timer for it being cancelled. */
  lemma ScheduleOwnEntry(st: TimerState, note: ReminderNote, now: int, parseTime: string -> Option<int>)
    requires Consistent(st)
    ensures Skipped(note) ==> Schedule(st, note, now, parseTime) == st
    ensures !Skipped(note) ==>
              var r := Schedule(st, note, now, parseTime);
              var due := parseTime(note.reminderDate.value);
              && (note.id in r.timers <==> due.Some? && InWindow(due.value - now))
              && (note.id in r.timers ==>
                    r.timers[note.id] == st.nextTimer && r.pending[st.nextTimer] == Timer(note.id, due.value - now, AlertFor(note)))
              && (note.id in st.timers ==> st.timers[note.id] !in r.pending)
  {
  }

  /** Scheduling one note leaves every other note's timer as it was. */
  lemma ScheduleOtherEntries(st: TimerState, note: ReminderNote, now: int, parseTime: string -> Option<int>, id: string)
    requires Consistent(st) && id != note.id
    ensures var r := Schedule(st, note, now, parseTime);
            && (id in r.timers <==> id in st.timers)
            && (id in st.timers ==>
                  r.timers[id] == st.timers[id] && st.timers[id] in r.pending && r.pending[st.timers[id]] == st.pending[st.timers[id]])
  {
    if id in st.timers && note.id in st.timers && !Skipped(note) {
      assert st.timers[id] != st.timers[note.id];
    }
  }

  /** `notes.forEach(note => scheduleNotification(note))`, the i-th call at time `nows[i]`. */
  function ScheduleAll(st: TimerState, notes: seq<ReminderNote>, nows: seq<int>, parseTime: string -> Option<int>): (r: TimerState)
    requires |nows| == |notes|
    ensures forall id :: id in r.timers ==> id in st.timers || exists i :: 0 <= i < |notes| && notes[i].id == id
    ensures st.nextTimer <= r.nextTimer <= st.nextTimer + |notes|
  {
    if notes == [] then st
    else Schedule(ScheduleAll(st, notes[..|notes| - 1], nows[..|nows| - 1], parseTime), notes[|notes| - 1], nows[|nows| - 1], parseTime)
  }

  /** Scheduling a whole list keeps at most one timer per note. */
  lemma {:induction false} ScheduleAllKeepsConsistent(st: TimerState, notes: seq<ReminderNote>, nows: seq<int>, parseTime: string -> Option<int>)
    requires Consistent(st) && |nows| == |notes|
    ensures Consistent(ScheduleAll(st, notes, nows, parseTime))
  {
    if notes != [] {
      ScheduleAllKeepsConsistent(st, notes[..|notes| - 1], nows[..|nows| - 1], parseTime);
      ScheduleKeepsConsistent(ScheduleAll(st, notes[..|notes| - 1], nows[..|nows| - 1], parseTime), notes[|notes| - 1], nows[|nows| - 1], parseTime);
    }
  }

  /** A note absent from the list keeps its timer, whatever the list schedules. */
  lemma {:induction false} ScheduleAllOtherEntries(st: TimerState, notes: seq<ReminderNote>, nows: seq<int>, parseTime: string -> Option<int>, id: string)
    requires Consistent(st) && |nows| == |notes|
    requires forall i :: 0 <= i < |notes| ==> notes[i].id != id
    ensures var r := ScheduleAll(st, notes, nows, parseTime);
            && (id in r.timers <==> id in st.timers)
            && (id in st.timers ==>
                  r.timers[id] == st.timers[id] && st.timers[id] in r.pending && r.pending[st.timers[id]] == st.pending[st.timers[id]])
  {
    if notes != [] {
      var init := notes[..|notes| - 1];
      ScheduleAllOtherEntries(st, init, nows[..|nows| - 1], parseTime, id);
      ScheduleAllKeepsConsistent(st, init, nows[..|nows| - 1], parseTime);
      ScheduleOtherEntries(ScheduleAll(st, init, nows[..|nows| - 1], parseTime), notes[|notes| - 1], nows[|nows| - 1], parseTime, id);
    }
  }

  /** The module-level state: `scheduledTimers`, the pending callbacks and the
      notifications shown so far. */
  class Scheduler {
    var timers: map<string, nat>
    var pending: map<nat, Timer>
    var nextTimer: nat
    var shown: seq<Alert>

    function State(): TimerState
      reads this
    {
      TimerState(timers, pending, nextTimer)
    }

    ghost predicate Valid()
      reads this
    {
      Consistent(State())
    }

    constructor ()
      ensures Valid() && timers == map[] && pending == map[] && shown == []
    {
      timers := map[];
      pending := map[];
      nextTimer := 0;
      shown := [];
    }

    /** `scheduleNotification(note)`. */
    method ScheduleNote(note: ReminderNote, now: int, parseTime: string -> Option<int>)
      requires Valid()
      modifies this
      ensures State() == Schedule(old(State()), note, now, parseTime) && shown == old(shown)
      ensures Valid()
    {
      ScheduleKeepsConsistent(State(), note, now, parseTime);
      if !Truthy(note.reminderDate) || note.isDeleted {
        return;
      }
      ghost var before := State();
      ClearTimer(note.id);
      ghost var cleared := State();
      var due := parseTime(note.reminderDate.value);
      if due.Some? && 0 < due.value - now < Day {
        var timer := nextTimer;
        var alert := AlertFor(note);
        nextTimer := nextTimer + 1;
        pending := pending[timer := Timer(note.id, due.value - now, alert)];
        timers := timers[note.id := timer];
        assert State() == TimerState(cleared.timers[note.id := timer], cleared.pending[timer := Timer(note.id, due.value - now, alert)], before.nextTimer + 1);
      }
    }

    /** `clearTimeout(scheduledTimers.get(id))` and `scheduledTimers.delete(id)`, when
        the note has a timer. */
    method ClearTimer(id: string)
      modifies this
      ensures State() == Cleared(old(State()), id) && shown == old(shown)
    {
      if id in timers {
        pending := pending - {timers[id]};
        timers := timers - {id};
      }
    }

    /** `scheduleAllNotifications(notes)`. */
    method ScheduleNotes(notes: seq<ReminderNote>, nows: seq<int>, parseTime: string -> Option<int>)
      requires Valid() && |nows| == |notes|
      modifies this
      ensures Valid()
      ensures State() == ScheduleAll(old(State()), notes, nows, parseTime) && shown == old(shown)
    {
      for i := 0 to |notes|
        invariant Valid() && shown == old(shown)
        invariant State() == ScheduleAll(old(State()), notes[..i], nows[..i], parseTime)
      {
        assert notes[..i + 1][..i] == notes[..i] && nows[..i + 1][..i] == nows[..i];
        ScheduleNote(notes[i], nows[i], parseTime);
      }
      assert notes[..|notes|] == notes && nows[..|nows|] == nows;
    }

    /** The browser runs the callback of timer `t`: the notification is shown and the
        note's entry is removed. */
    method Fire(t: nat)
      requires Valid() && t in pending
      modifies this
      ensures Valid()
      ensures shown == old(shown) + [old(pending)[t].alert]
      ensures timers == old(timers) - {old(pending)[t].noteId} && pending == old(pending) - {t}
      ensures nextTimer == old(nextTimer)
    {
      var timer := pending[t];
      shown := shown + [timer.alert];
      timers := timers - {timer.noteId};
      pending := pending - {t};
    }
  }
}
