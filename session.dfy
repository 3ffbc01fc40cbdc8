// The state of one running app: the task store, the chat transcript, the
// chat input box, the energy gauge, the pulse counter that restarts the
// gauge's animation, and the chat timers not yet run. Each method is one of
// the app's handlers; the browser's timer queue is modelled explicitly, and
// a timer firing is the event `Fire`.

module AppSession {
  import opened Options
  import opened Text
  import opened Dates
  import opened Tasks
  import opened Views
  import opened Chat
  import Energy
  import Intent

  /** What a chat timer's callback closed over when it was scheduled: the
      text that was sent and the selected day. */
  datatype Pending = Pending(text: string, date: Date)

  class Session {
    var tasks: seq<Task>
    var messages: seq<Message>
    var input: string
    var energy: int
    var pulse: int
    /** The ids kept in `timeoutsRef`. */
    var timeouts: set<nat>
    /** The browser's live timers: id to the callback's captured values. */
    var queue: map<nat, Pending>
    /** The selected day; the app never changes it after mounting. */
    const selectedDate: Date

    /** The gauge is within [0, 100], every task has a real date, and the id
        set tracks exactly the timers that have neither run nor been cleared. */
    predicate Valid()
      reads this
    {
      0 <= energy <= Energy.Max && 0 <= pulse
      && selectedDate.Valid() && AllValid(tasks)
      && timeouts == queue.Keys
      && (forall id :: id in queue ==> queue[id].date.Valid())
    }

    /** A freshly mounted app: no tasks, the greeting alone in the chat, an
        empty input box, the gauge at 0 and no pending timers. */
    constructor(today: Date, now: int)
      requires today.Valid()
      ensures Valid()
      ensures tasks == [] && messages == [Greeting(now)] && input == ""
      ensures energy == 0 && pulse == 0 && timeouts == {} && queue == map[]
      ensures selectedDate == today
    {
      tasks := [];
      messages := [Greeting(now)];
      input := "";
      energy := 0;
      pulse := 0;
      timeouts := {};
      queue := map[];
      selectedDate := today;
    }

    /** Typing into the chat box. */
    method SetInput(text: string)
      requires Valid()
      modifies this
      ensures Valid()
      ensures input == text
      ensures tasks == old(tasks) && messages == old(messages) && energy == old(energy)
      ensures pulse == old(pulse) && timeouts == old(timeouts) && queue == old(queue)
    {
      input := text;
    }

    /** `addTask`: one new incomplete task at the end of the store; the
        tasks already there are untouched. */
    method AddTask(id: int, title: string, time: string, date: Date)
      requires Valid() && date.Valid()
      modifies this
      ensures Valid()
      ensures tasks == old(tasks) + [NewTask(id, title, time, date)]
      ensures messages == old(messages) && input == old(input) && energy == old(energy)
      ensures pulse == old(pulse) && timeouts == old(timeouts) && queue == old(queue)
    {
      tasks := tasks + [NewTask(id, title, time, date)];
    }

    /** `submitNewTask`: a blank title changes nothing; any other title adds
        the task, credits 3 energy and bumps the pulse. */
    method SubmitNewTask(id: int, title: string, time: string, date: Date)
      requires Valid() && date.Valid()
      modifies this
      ensures Valid()
      ensures IsBlank(title) ==> tasks == old(tasks) && energy == old(energy) && pulse == old(pulse)
      ensures !IsBlank(title) ==>
                tasks == old(tasks) + [NewTask(id, title, time, date)]
                && energy == Energy.Credit(old(energy), Energy.Amount(Energy.ManualAdd))
                && pulse == old(pulse) + 1
      ensures old(energy) <= energy
      ensures messages == old(messages) && input == old(input)
      ensures timeouts == old(timeouts) && queue == old(queue)
    {
      TrimEmptyIffBlank(title);
      if Trim(title) == [] {
        return;
      }
      AddTask(id, title, time, date);
      energy := Energy.Credit(energy, Energy.Amount(Energy.ManualAdd));
      pulse := pulse + 1;
    }

    /** `toggleTaskCompletion`: every task with the id flips its flag, and
        the gauge and the pulse go up whether or not any task matched. */
    method ToggleTaskCompletion(id: int)
      requires Valid()
      modifies this
      ensures Valid()
      ensures tasks == Toggled(old(tasks), id)
      ensures energy == Energy.Credit(old(energy), Energy.Amount(Energy.Toggled))
      ensures old(energy) <= energy
      ensures pulse == old(pulse) + 1
      ensures messages == old(messages) && input == old(input)
      ensures timeouts == old(timeouts) && queue == old(queue)
    {
      tasks := Toggled(tasks, id);
      assert forall i :: 0 <= i < |tasks| ==> tasks[i].date == old(tasks)[i].date;
      energy := Energy.Credit(energy, Energy.Amount(Energy.Toggled));
      pulse := pulse + 1;
    }

    /** `deleteTask`: every task with the id leaves the store. */
    method DeleteTask(id: int)
      requires Valid()
      modifies this
      ensures Valid()
      ensures tasks == Without(old(tasks), id)
      ensures messages == old(messages) && input == old(input) && energy == old(energy)
      ensures pulse == old(pulse) && timeouts == old(timeouts) && queue == old(queue)
    {
      DeleteSpec(tasks, id);
      tasks := Without(tasks, id);
    }

    /** `handleSendMessage`: a blank input changes nothing; otherwise the text
        joins the chat as a user message, the box is cleared, and a timer is
        scheduled whose callback keeps the text and the selected day. */
    method HandleSendMessage(now: int, timerId: nat)
      requires Valid() && timerId !in queue
      modifies this
      ensures Valid()
      ensures IsBlank(old(input)) ==>
                messages == old(messages) && input == old(input)
                && timeouts == old(timeouts) && queue == old(queue)
      ensures !IsBlank(old(input)) ==>
                messages == old(messages) + [Message(now, User, old(input), now)]
                && input == ""
                && timeouts == old(timeouts) + {timerId}
                && queue == old(queue)[timerId := Pending(old(input), selectedDate)]
      ensures tasks == old(tasks) && energy == old(energy) && pulse == old(pulse)
    {
      TrimEmptyIffBlank(input);
      if Trim(input) == [] {
        return;
      }
      messages := messages + [Message(now, User, input, now)];
      var text := input;
      input := "";
      queue := queue[timerId := Pending(text, selectedDate)];
      timeouts := timeouts + {timerId};
    }

    /** The timer `timerId` runs its callback. A timer that already ran or
        was cleared does nothing. Otherwise the captured text goes through
        the intent pattern; on a match a task titled with the pattern's first
        group (a single character) and timed with its second group, or "",
        is added on the captured day with 5 energy and a pulse; then one
        reply is appended and the timer's id leaves the set. */
    method Fire(timerId: nat, now: int, replyIndex: nat)
      requires Valid() && replyIndex < |Replies|
      modifies this
      ensures Valid()
      ensures timerId !in old(queue) ==>
                tasks == old(tasks) && messages == old(messages) && energy == old(energy)
                && pulse == old(pulse) && timeouts == old(timeouts) && queue == old(queue)
      ensures timerId in old(queue) ==>
                var p := old(queue)[timerId];
                var m := Intent.Match(p.text);
                messages == old(messages) + [Message(now + 1, Ai, Reply(replyIndex), now)]
                && tasks == old(tasks) + (if m.Some? then [NewTask(now, m.value.title, m.value.time.GetOr(""), p.date)] else [])
                && energy == (if m.Some? then Energy.Credit(old(energy), Energy.Amount(Energy.ChatAdd)) else old(energy))
                && pulse == old(pulse) + (if m.Some? then 1 else 0)
                && timeouts == old(timeouts) - {timerId}
                && queue == old(queue) - {timerId}
      ensures timerId in old(queue) && Intent.Match(old(queue)[timerId].text).Some? ==>
                |tasks| == |old(tasks)| + 1 && |tasks[|tasks| - 1].title| == 1
      ensures old(energy) <= energy && input == old(input)
    {
      if timerId !in queue {
        return;
      }
      var p := queue[timerId];
      var reply := Message(now + 1, Ai, Reply(replyIndex), now);
      var m := Intent.Match(p.text);
      if m.Some? {
        Intent.MatchShape(p.text);
        var title := if m.value.title != [] then m.value.title else p.text;
        AddTask(now, title, m.value.time.GetOr(""), p.date);
        energy := Energy.Credit(energy, Energy.Amount(Energy.ChatAdd));
        pulse := pulse + 1;
      }
      messages := messages + [reply];
      queue := queue - {timerId};
      timeouts := timeouts - {timerId};
    }

    /** The unmount cleanup: every timer whose id is in the set is cleared,
        so none of them will run, and the set is emptied. */
    method Teardown()
      requires Valid()
      modifies this
      ensures Valid()
      ensures queue == old(queue) - old(timeouts) && queue == map[] && timeouts == {}
      ensures tasks == old(tasks) && messages == old(messages) && input == old(input)
      ensures energy == old(energy) && pulse == old(pulse)
    {
      var ids := timeouts;
      while ids != {}
        invariant ids <= timeouts
        invariant queue == old(queue) - (timeouts - ids)
        invariant queue.Keys == ids
        invariant tasks == old(tasks) && messages == old(messages) && input == old(input)
        invariant energy == old(energy) && pulse == old(pulse) && timeouts == old(timeouts)
        decreases ids
      {
        var t :| t in ids;
        queue := queue - {t};
        ids := ids - {t};
      }
      timeouts := {};
    }
  }

  /** "buy milk" submitted for 1 March 2024 without a time is the one task of
      that day; toggling it twice leaves it incomplete with 20 more energy. */
  method SubmitAndToggleScenario()
  {
    var day := Date(2024, 2, 1);
    var s := new Session(day, 1000);
    var title := "buy milk";
    assert !IsBlank(title) by { assert !IsSpace(title[0]); }
    s.SubmitNewTask(42, title, "", day);
    var t := NewTask(42, title, "", day);
    assert s.tasks == [t] && s.energy == 3;
    assert OnDate(s.tasks, day) == [t] by { OnDateAfterAppend([], t, day); }
    s.ToggleTaskCompletion(42);
    s.ToggleTaskCompletion(42);
    ToggleTwice([t], 42);
    assert s.tasks == [t] && !s.tasks[0].completed;
    assert s.energy == 23 && s.pulse == 3;
  }

  /** Sending whitespace schedules nothing and leaves the chat as it was. */
  method BlankMessageScenario()
  {
    var s := new Session(Date(2025, 4, 20), 1000);
    s.SetInput(" \t ");
    assert IsBlank(" \t ");
    s.HandleSendMessage(2000, 7);
    assert s.messages == [Greeting(1000)] && s.timeouts == {} && s.input == " \t ";
  }

  /** "надо x в 9:30" is sent and its timer fires: the task "x" at 9:30 is
      added on the selected day, the gauge reads 5, and the reply follows
      the user's message. */
  method ChatAddsTaskScenario(text: string)
    requires text == "надо x в 9:30"
  {
    var today := Date(2025, 4, 20);
    var s := new Session(today, 1000);
    s.SetInput(text);
    assert !IsBlank(text) by { assert !IsSpace(text[0]); }
    s.HandleSendMessage(3000, 7);
    assert s.queue == map[7 := Pending(text, today)];
    var sent := s.messages;
    assert |sent| == 2 && sent[1] == Message(3000, User, text, 3000);
    Intent.MatchWithClockOn(text);
    s.Fire(7, 4000, 3);
    assert s.tasks == [NewTask(4000, "x", "9:30", today)];
    assert s.energy == 5 && s.pulse == 1 && s.timeouts == {};
    assert s.messages == sent + [Message(4001, Ai, Reply(3), 4000)];
  }

  /** A timer cleared on unmount never runs: firing it afterwards changes nothing. */
  method TeardownScenario()
  {
    var s := new Session(Date(2025, 4, 20), 1000);
    var text := "привет";
    s.SetInput(text);
    assert !IsBlank(text) by { assert !IsSpace(text[0]); }
    s.HandleSendMessage(5000, 8);
    s.Teardown();
    s.Fire(8, 6000, 0);
    assert |s.messages| == 2 && s.tasks == [] && s.energy == 0;
  }
}
