/**
 * The map component's animation state as an event-driven machine.  Scroll
 * events select a section; entering a section cancels pending timers,
 * clears the terminal text, closes the pin detail view and either starts
 * the country animation (a timeout that ends it) or goes straight to the
 * typewriter, which reveals the section text one character per tick.
 * Timers are events: `AnimationTimeout` is the animation timeout firing and
 * `TypewriterTick` one firing of the typewriter interval.  React's effect
 * commits are collapsed into the state they settle in.
 */
module ScrollMachine {

  import opened Basics
  import opened JsValue
  import opened Story

  datatype Phase = Animating | Done

  /** The typewriter interval: stopped, or running with this many characters shown. */
  datatype Typewriter = Stopped | Running(revealed: nat)

  datatype State = State(
    section: nat,
    phase: Phase,
    animationKey: nat,
    displayed: string,
    selected: Option<Object>,
    timerPending: bool,
    typewriter: Typewriter)

  datatype Event =
    | Scroll(scrollTop: real, scrollRange: real)
    | AnimationTimeout
    | TypewriterTick
    | SelectPin(pin: Object)
    | ClosePin

  /** Whether entering this section plays the country animation first. */
  predicate Animates(sec: Section) {
    !sec.isSimple && |sec.countries| > 0
  }

  /** Whether the typewriter runs for this section once its animation is done. */
  predicate Types(sec: Section) {
    !sec.isSimple && sec.text != ""
  }

  /** The machine's invariant: what every reachable state satisfies. */
  ghost predicate Inv(secs: seq<Section>, s: State) {
    && s.section < |secs|
    && (s.timerPending <==> s.phase == Animating)
    && (s.phase == Animating ==>
          Animates(secs[s.section]) && s.displayed == "" && s.typewriter == Stopped)
    && (s.typewriter.Running? ==>
          && s.phase == Done
          && Types(secs[s.section])
          && s.typewriter.revealed < |secs[s.section].text|
          && s.displayed == secs[s.section].text[..s.typewriter.revealed])
    && |s.displayed| <= |secs[s.section].text|
    && s.displayed == secs[s.section].text[..|s.displayed|]
    && (s.selected.Some? ==> s.section == |secs| - 1)
  }

  /**
   * Whether the typewriter effect runs again after a change from the
   * section of `s` to `next` that ends in the done phase: only when one of
   * its dependencies (the phase, `isSimple`, the text) changed.
   */
  predicate TypewriterRerun(secs: seq<Section>, s: State, next: Section)
    requires s.section < |secs|
  {
    s.phase != Done || secs[s.section].isSimple != next.isSimple || secs[s.section].text != next.text
  }

  /**
   * The section-change effect, followed by the typewriter effect when its
   * dependencies changed: timers cancelled, text cleared, detail view
   * closed, and the phase chosen from the new section.
   */
  function EnterSection(secs: seq<Section>, s: State, idx: nat): (r: State)
    requires idx < |secs| && s.section < |secs|
    ensures Inv(secs, r)
    ensures r.section == idx && r.displayed == "" && r.selected == None
    ensures r.phase == Animating <==> !secs[idx].isSimple && |secs[idx].countries| > 0
    ensures r.typewriter.Running? <==>
      r.phase == Done && !secs[idx].isSimple && secs[idx].text != "" && TypewriterRerun(secs, s, secs[idx])
  {
    var sec := secs[idx];
    if Animates(sec) then
      State(idx, Animating, s.animationKey + 1, "", None, true, Stopped)
    else
      State(idx, Done, s.animationKey, "", None, false,
        if Types(sec) && TypewriterRerun(secs, s, sec) then Running(0) else Stopped)
  }

  /** The state before the first commit. */
  const Mounted: State := State(0, Done, 0, "", None, false, Stopped)

  /**
   * The state after mounting, when every effect runs once: the
   * section-change effect and then the typewriter effect for section 0.
   */
  function Initial(secs: seq<Section>): (r: State)
    requires |secs| > 0
    ensures Inv(secs, r) && r.section == 0 && r.displayed == "" && r.selected == None
    ensures r.phase == Animating <==> Animates(secs[0])
    ensures r.typewriter.Running? <==> !Animates(secs[0]) && Types(secs[0])
  {
    var r := EnterSection(secs, Mounted, 0);
    if r.phase == Done && Types(secs[0]) then r.(typewriter := Running(0)) else r
  }

  /** The preconditions the browser guarantees for an event. */
  predicate Admissible(e: Event) {
    e.Scroll? ==> e.scrollRange > 0.0 && 0.0 <= e.scrollTop
  }

  /** One event. */
  function Step(secs: seq<Section>, s: State, e: Event): (r: State)
    requires Inv(secs, s) && Admissible(e)
    ensures Inv(secs, r)
  {
    match e
    case Scroll(top, range) =>
      var idx := SectionIndex(Progress(top, range), |secs|);
      if idx != s.section then EnterSection(secs, s, idx) else s
    case AnimationTimeout =>
      if s.timerPending then
        var sec := secs[s.section];
        s.(phase := Done, timerPending := false,
           typewriter := if Types(sec) then Running(0) else Stopped)
      else s
    case TypewriterTick =>
      if s.typewriter.Running? then
        var k := s.typewriter.revealed;
        var text := secs[s.section].text;
        s.(displayed := text[..k + 1],
           typewriter := if k + 1 >= |text| then Stopped else Running(k + 1))
      else s
    case SelectPin(p) =>
      if s.section == |secs| - 1 then s.(selected := Some(p)) else s
    case ClosePin =>
      s.(selected := None)
  }

  /** A whole run of admissible events from a reachable state. */
  function Run(secs: seq<Section>, s: State, events: seq<Event>): State
    requires Inv(secs, s)
    requires forall i :: 0 <= i < |events| ==> Admissible(events[i])
    decreases |events|
  {
    if events == [] then s
    else Run(secs, Step(secs, s, events[0]), events[1..])
  }

  /** Every state reached from the initial one by any event sequence satisfies the invariant. */
  lemma {:induction false} RunKeepsInv(secs: seq<Section>, s: State, events: seq<Event>)
    requires Inv(secs, s)
    requires forall i :: 0 <= i < |events| ==> Admissible(events[i])
    ensures Inv(secs, Run(secs, s, events))
    ensures Run(secs, s, events).section < |secs|
    decreases |events|
  {
    if events != [] {
      RunKeepsInv(secs, Step(secs, s, events[0]), events[1..]);
    }
  }

  /**
   * A scroll selects `min(floor(progress * N), N - 1)` and, when that is a
   * new section, resets the text and the detail view and picks the phase.
   */
  lemma ScrollChangesSection(secs: seq<Section>, s: State, top: real, range: real)
    requires Inv(secs, s) && range > 0.0 && 0.0 <= top
    ensures var r := Step(secs, s, Scroll(top, range));
      var p := top / range * |secs| as real;
      && r.section < |secs|
      && (r.section < |secs| - 1 ==> r.section as real <= p < r.section as real + 1.0)
      && (r.section == |secs| - 1 ==> (|secs| - 1) as real <= p)
      && (r.section != s.section ==>
            && r.displayed == ""
            && r.selected == None
            && (r.phase == Animating <==> Animates(secs[r.section])))
      && (r.section == s.section ==> r == s)
  {
  }

  /** `k` ticks of the typewriter interval. */
  function Ticks(secs: seq<Section>, s: State, k: nat): State
    requires Inv(secs, s)
    decreases k
  {
    if k == 0 then s else Ticks(secs, Step(secs, s, TypewriterTick), k - 1)
  }

  /**
   * After `k` ticks from a freshly started typewriter the terminal shows the
   * first `k` characters of the section text; after `|text|` ticks it shows
   * the whole text and the interval has stopped.
   */
  lemma {:induction false} TypewriterReveals(secs: seq<Section>, s: State, j: nat, k: nat)
    requires Inv(secs, s) && s.typewriter == Running(j)
    requires j + k <= |secs[s.section].text|
    ensures var r := Ticks(secs, s, k);
      var text := secs[s.section].text;
      && r.section == s.section
      && r.displayed == text[..j + k]
      && (r.typewriter == Stopped <==> j + k == |text|)
      && (j + k < |text| ==> r.typewriter == Running(j + k))
    decreases k
  {
    if k > 0 {
      var text := secs[s.section].text;
      var s1 := Step(secs, s, TypewriterTick);
      assert s1.displayed == text[..j + 1];
      if j + 1 < |text| {
        assert s1.typewriter == Running(j + 1);
        TypewriterReveals(secs, s1, j + 1, k - 1);
      } else {
        assert k == 1;
      }
    }
  }

  /** Once stopped, further ticks change nothing. */
  lemma {:induction false} StoppedTicksIdle(secs: seq<Section>, s: State, k: nat)
    requires Inv(secs, s) && s.typewriter == Stopped
    ensures Ticks(secs, s, k) == s
    decreases k
  {
    if k > 0 {
      StoppedTicksIdle(secs, Step(secs, s, TypewriterTick), k - 1);
    }
  }

  /**
   * Entering a section that animates and has text: once the animation
   * timeout fires, `|text|` ticks reveal the whole text and stop.
   */
  lemma AnimatedSectionFullyRevealed(secs: seq<Section>, s: State, idx: nat)
    requires idx < |secs| && s.section < |secs| && Animates(secs[idx]) && secs[idx].text != ""
    ensures var entered := EnterSection(secs, s, idx);
      var fired := Step(secs, entered, AnimationTimeout);
      var r := Ticks(secs, fired, |secs[idx].text|);
      && entered.phase == Animating && entered.displayed == ""
      && fired.phase == Done && fired.typewriter == Running(0)
      && r.displayed == secs[idx].text && r.typewriter == Stopped
  {
    var entered := EnterSection(secs, s, idx);
    var fired := Step(secs, entered, AnimationTimeout);
    TypewriterReveals(secs, fired, 0, |secs[idx].text|);
  }

  /**
   * In the story as written, every narrative section animates, and the
   * start and explore sections show no typewriter at all, whichever
   * section the page comes from.
   */
  lemma StorySectionsPhases(s: State, idx: nat)
    requires idx < |StorySections| && s.section < |StorySections|
    ensures var r := EnterSection(StorySections, s, idx);
      && (r.phase == Animating <==> 0 < idx < |StorySections| - 1)
      && r.typewriter == Stopped
  {
  }
}
