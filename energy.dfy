// The energy gauge: one counter that starts at 0, is credited by fixed
// amounts on task events and saturates at 100, and the status label shown
// for its current value.

module Energy {

  const Max: int := 100

  /** The three credits the app grants. */
  datatype Event =
    | Toggled       // a task's completion flag was flipped: +10
    | ManualAdd     // a task was submitted from the form: +3
    | ChatAdd       // the chat reply created a task: +5

  function Amount(e: Event): nat {
    match e
    case Toggled => 10
    case ManualAdd => 3
    case ChatAdd => 5
  }

  /** `Math.min(100, prev + amount)`: the new level is the smaller of the
      cap and the uncapped sum. */
  function Credit(level: int, amount: nat): (r: int)
    ensures r <= Max && r <= level + amount
    ensures r == Max || r == level + amount
    ensures level <= Max ==> level <= r
  {
    if level + amount < Max then level + amount else Max
  }

  /** The level after a sequence of credits, applied in order. */
  function Apply(level: int, events: seq<Event>): int
    decreases events
  {
    if events == [] then level else Apply(Credit(level, Amount(events[0])), events[1..])
  }

  function TotalAmount(events: seq<Event>): nat {
    if events == [] then 0 else Amount(events[0]) + TotalAmount(events[1..])
  }

  /** Whatever the credits, a level in [0, 100] stays in [0, 100], never
      decreases, and ends at the cap or at the plain sum of the credits. */
  lemma {:induction false} ApplyStaysInRange(level: int, events: seq<Event>)
    requires 0 <= level <= Max
    ensures level <= Apply(level, events) <= Max
    ensures Apply(level, events) == if level + TotalAmount(events) < Max then level + TotalAmount(events) else Max
    decreases events
  {
    if events != [] {
      ApplyStaysInRange(Credit(level, Amount(events[0])), events[1..]);
    }
  }

  datatype Status = Champion | Hot | NeedsCoffee | Critical | Asleep

  /** `getEnergyStatus`: the first threshold the level reaches, tested from
      the top; the chain partitions the levels into disjoint bands. */
  function StatusOf(level: int): (s: Status)
    ensures s == Champion <==> 90 <= level
    ensures s == Hot <==> 70 <= level < 90
    ensures s == NeedsCoffee <==> 50 <= level < 70
    ensures s == Critical <==> 30 <= level < 50
    ensures s == Asleep <==> level < 30
  {
    if level >= 90 then Champion
    else if level >= 70 then Hot
    else if level >= 50 then NeedsCoffee
    else if level >= 30 then Critical
    else Asleep
  }

  /** The text the app shows for each status. */
  function Label(s: Status): string {
    match s
    case Champion => "ЧЕМПИОН! 🏆"
    case Hot => "ГОРЯЧИЙ! 🔥"
    case NeedsCoffee => "НАДО КОФЕ! ☕"
    case Critical => "СПАСАЙТЕ! 😵"
    case Asleep => "Zzz... 💤"
  }

  /** More energy never yields a lower status. */
  lemma StatusMonotone(a: int, b: int)
    requires a <= b
    ensures Rank(StatusOf(a)) <= Rank(StatusOf(b))
  {
  }

  function Rank(s: Status): nat {
    match s
    case Asleep => 0
    case Critical => 1
    case NeedsCoffee => 2
    case Hot => 3
    case Champion => 4
  }
}
