/**
 From decided actions to the click counter. noteAction runs after `pressMu` is released, so decided
 actions reach the device in any order; the device may also be removed or join meanwhile.
 */
module Clicks {
  import opened Common
  import G = Gesture

  /** ClickSeq is a uint64. */
  const WRAP := 0x1_0000_0000_0000_0000

  datatype Counter = Counter(clickSeq: nat, lastClick: string)

  /** `pending` are actions decided but not yet noted; `dev` is the button's entry in the registry. */
  datatype State = State(history: seq<G.Event>, pending: multiset<string>, noted: seq<string>, dev: Option<Counter>)

  datatype Step = Press(e: G.Event) | Note(action: string) | Removed | Joined

  predicate Enabled(s: State, step: Step) { step.Note? ==> step.action in s.pending }

  /** noteAction for a device that is, or is no longer, registered. */
  function NoteOn(dev: Option<Counter>, action: string): Option<Counter> {
    if dev.None? then None else Some(Counter((dev.value.clickSeq + 1) % WRAP, action))
  }

  function Take(s: State, step: Step): State
    requires Enabled(s, step)
  {
    match step
    case Press(e) =>
      var d := G.Decide(G.Run(s.history).cur, |s.history|, e);
      s.(history := s.history + [e], pending := s.pending + if d.Some? then multiset{d.value.action} else multiset{})
    case Note(a) => s.(pending := s.pending - multiset{a}, noted := s.noted + [a], dev := NoteOn(s.dev, a))
    case Removed => s.(dev := None)
    case Joined => if s.dev.Some? then s else s.(dev := Some(Counter(0, "")))
  }

  ghost predicate Reaches(s: State, steps: seq<Step>, t: State)
    decreases |steps|
  {
    if steps == [] then t == s
    else Enabled(s, steps[0]) && Reaches(Take(s, steps[0]), steps[1..], t)
  }

  /** Nothing decided is lost or invented on its way to the counter. */
  ghost predicate Conserved(s: State, start: nat) {
    var decided := G.Actions(G.Run(s.history).log);
    && multiset(decided) == s.pending + multiset(s.noted)
    && |decided| == |s.pending| + |s.noted|
    && s.dev.Some?
    && s.dev.value.clickSeq == (start + |s.noted|) % WRAP
    && (s.noted != [] ==> s.dev.value.lastClick == s.noted[|s.noted| - 1])
  }

  lemma PressKeeps(s: State, e: G.Event, start: nat)
    requires Conserved(s, start)
    ensures Conserved(Take(s, Press(e)), start)
  {
    var run := G.Run(s.history);
    var d := G.Decide(run.cur, |s.history|, e);
    G.RunAppend(s.history, e);
    G.ActionsAppend(run.log, d);
    DecidedMore(G.Actions(run.log), s.pending, s.noted, if d.Some? then [d.value.action] else []);
  }

  lemma DecidedMore(decided: seq<string>, pending: multiset<string>, noted: seq<string>, more: seq<string>)
    requires multiset(decided) == pending + multiset(noted) && |decided| == |pending| + |noted|
    ensures multiset(decided + more) == pending + multiset(more) + multiset(noted)
    ensures |decided + more| == |pending + multiset(more)| + |noted|
    ensures |more| == 1 ==> multiset(more) == multiset{more[0]}
  {
    if |more| == 1 { assert more == [more[0]]; }
  }

  lemma NoteKeeps(s: State, a: string, start: nat)
    requires Conserved(s, start) && a in s.pending
    ensures Conserved(Take(s, Note(a)), start)
  {
    WrapStep(start + |s.noted|);
    MovesOver(s.pending, s.noted, a);
  }

  lemma MovesOver(pending: multiset<string>, noted: seq<string>, a: string)
    requires a in pending
    ensures pending + multiset(noted) == (pending - multiset{a}) + multiset(noted + [a])
    ensures |pending - multiset{a}| == |pending| - 1
    ensures (noted + [a])[|noted|] == a
  {
    assert multiset(noted + [a]) == multiset(noted) + multiset{a};
  }

  lemma WrapStep(n: nat)
    ensures (n % WRAP + 1) % WRAP == (n + 1) % WRAP
  {
  }

  /**
   While the device stays registered, the growth of ClickSeq plus the actions still on their way
   equals all actions decided, in every interleaving of presses, callbacks and noteAction calls.
   */
  lemma {:induction false} ClicksConserved(s: State, steps: seq<Step>, t: State, start: nat)
    requires Conserved(s, start) && Reaches(s, steps, t) && Removed !in steps
    ensures Conserved(t, start)
    decreases |steps|
  {
    if steps != [] {
      match steps[0] {
        case Press(e) => PressKeeps(s, e, start);
        case Note(a) => NoteKeeps(s, a, start);
        case Joined =>
        case Removed =>
      }
      ClicksConserved(Take(s, steps[0]), steps[1..], t, start);
    }
  }

  /** A button with no history yet, whose counter stands at `start`. */
  function Untouched(start: nat, last: string): State {
    State([], multiset{}, [], Some(Counter(start, last)))
  }

  /**
   From a button with no history, for as long as its device stays registered: once nothing is on its way
   any more, ClickSeq has grown by exactly the number of actions decided.
   */
  lemma AllClicksArrive(start: nat, last: string, steps: seq<Step>, t: State)
    requires start < WRAP && Reaches(Untouched(start, last), steps, t) && Removed !in steps
    ensures Conserved(t, start)
    ensures t.pending == multiset{} ==>
              var decided := G.Actions(G.Run(t.history).log);
              multiset(t.noted) == multiset(decided)
              && t.dev.value.clickSeq == (start + |decided|) % 0x1_0000_0000_0000_0000
  {
    ClicksConserved(Untouched(start, last), steps, t, start);
  }
}
