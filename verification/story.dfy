/**
 * The scroll story's static data and the pure derivations the map makes
 * from the current section: which section a scroll position selects, the
 * countries and pins already visited ("past"), those of the active section
 * ("current"), and how each dot and city pin is classified.
 */
module Story {

  /** One step of the scroll narrative. */
  datatype Section = Section(
    id: string,
    text: string,
    cityLabel: string,
    countries: seq<string>,
    pins: seq<string>,
    isSimple: bool)

  /** The two name lists a section carries. */
  datatype Kind = Countries | Pins

  /** The marker a section uses in place of a list of names: "everything". */
  const All: string := "ALL"

  /** The country tag of every dot outside the story countries. */
  const Rest: string := "REST"

  /** The narrative, in scroll order.  A missing `isSimple` reads as false. */
  const StorySections: seq<Section> := [
    Section("start", "", "", [], [], true),
    Section("born", "born in \U{1F1EA}\U{1F1F8} madrid (but don't ask me to speak spanish)",
      "Madrid, Spain", ["ESP"], ["Madrid"], false),
    Section("origins", "originally \U{1F1EB}\U{1F1F7} french & \U{1F1EC}\U{1F1F7} greek (so ik what good food is)",
      "Paris, France  ·  Athens, Greece", ["FRA", "GRC"], ["Paris", "Athens"], false),
    Section("grewup",
      "grew up all over \U{1F1E9}\U{1F1EA}\U{1F1EB}\U{1F1F7}\U{1F1E8}\U{1F1F3} (and surprisingly chinese is the language that stuck)",
      "Düsseldorf, Germany  ·  Shanghai, China", ["DEU", "CHN"], ["Düsseldorf", "Shanghai"], false),
    Section("school", "studied in philly (upenn), now working in new york (hebbia) \U{1F1FA}\U{1F1F8}",
      "Philadelphia  ·  New York City", ["USA"], ["Philadelphia", "NYC"], false),
    Section("explore", "click dots :)", "", [All], [All], true)
  ]

  /** The countries the story walks through. */
  const StoryCountries: seq<string> := ["ESP", "FRA", "GRC", "DEU", "CHN", "USA"]

  /** The names of the story's city pins. */
  const StoryPinNames: seq<string> :=
    ["Madrid", "Düsseldorf", "Shanghai", "Athens", "Paris", "Philadelphia", "NYC"]

  function Names(s: Section, k: Kind): seq<string> {
    match k
    case Countries => s.countries
    case Pins => s.pins
  }

  /** The scroll fraction: how far the container is scrolled over its scrollable range. */
  function Progress(scrollTop: real, scrollRange: real): (p: real)
    requires scrollRange > 0.0
    ensures 0.0 <= scrollTop <= scrollRange ==> 0.0 <= p <= 1.0
    ensures p * scrollRange == scrollTop
  {
    scrollTop / scrollRange
  }

  /**
   * The section a scroll fraction selects among `n`: the floor of
   * `progress * n`, clamped to the last section.
   */
  function SectionIndex(progress: real, n: nat): (r: int)
    requires n > 0
    ensures r <= n - 1
    ensures progress >= 0.0 ==> 0 <= r
    ensures r < n - 1 ==> r as real <= progress * n as real < r as real + 1.0
    ensures r == n - 1 ==> (n - 1) as real <= progress * n as real
  {
    var f := (progress * n as real).Floor;
    if f < n - 1 then f else n - 1
  }

  /**
   * A scroll position slightly above the top (an overscroll bounce) selects
   * section -1: the floor is not clamped from below.
   */
  lemma OverscrollSelectsMinusOne(progress: real, n: nat)
    requires n > 0 && -1.0 <= progress * n as real < 0.0
    ensures SectionIndex(progress, n) == -1
  {
  }

  /** The names of one section's list, without the `ALL` marker. */
  function Visited(s: Section, k: Kind): (r: set<string>)
    ensures forall x :: x in r <==> x in Names(s, k) && x != All
  {
    set x | x in Names(s, k) && x != All
  }

  /** The `past` set: every name listed by a section strictly before `idx`, except `ALL`. */
  function PastSet(secs: seq<Section>, idx: nat, k: Kind): set<string>
    requires idx <= |secs|
    decreases idx
  {
    if idx == 0 then {} else PastSet(secs, idx - 1, k) + Visited(secs[idx - 1], k)
  }

  /**
   * The `current` set: the active section's names, or, when its countries
   * include `ALL`, every story country plus the rest of the world (for
   * countries) and every story pin (for pins).
   */
  function CurrentSet(s: Section, k: Kind): (r: set<string>)
    ensures All !in s.countries ==> forall x :: x in r <==> x in Names(s, k)
    ensures All in s.countries && k == Countries ==>
      forall x :: x in r <==> x in StoryCountries || x == Rest
    ensures All in s.countries && k == Pins ==> forall x :: x in r <==> x in StoryPinNames
  {
    if All in s.countries then
      (if k == Countries then set x | x in StoryCountries + [Rest] else set x | x in StoryPinNames)
    else set x | x in Names(s, k)
  }

  /** A dot's or pin's state relative to the active section. */
  datatype Mark = Current | Past | Background

  /** The classification with current taking precedence over past. */
  function Classify(secs: seq<Section>, idx: nat, k: Kind, name: string): (m: Mark)
    requires idx < |secs|
    ensures m == Current <==> name in CurrentSet(secs[idx], k)
    ensures m == Past <==> name !in CurrentSet(secs[idx], k) && name in PastSet(secs, idx, k)
    ensures m == Background <==> name !in CurrentSet(secs[idx], k) && name !in PastSet(secs, idx, k)
  {
    if name in CurrentSet(secs[idx], k) then Current
    else if name in PastSet(secs, idx, k) then Past
    else Background
  }

  /** getDotState: the CSS state of a map dot tagged with `country`. */
  function DotState(idx: nat, country: string): (r: string)
    requires idx < |StorySections|
    ensures r == "current" || r == "past" || r == "base"
    ensures r == "current" <==> Classify(StorySections, idx, Countries, country) == Current
    ensures r == "past" <==> Classify(StorySections, idx, Countries, country) == Past
  {
    match Classify(StorySections, idx, Countries, country)
    case Current => "current"
    case Past => "past"
    case Background => "base"
  }

  /** getPinState: the CSS state of a story pin; unvisited pins are hidden. */
  function PinState(idx: nat, name: string): (r: string)
    requires idx < |StorySections|
    ensures r == "current" || r == "past" || r == "hidden"
    ensures r == "current" <==> Classify(StorySections, idx, Pins, name) == Current
    ensures r == "past" <==> Classify(StorySections, idx, Pins, name) == Past
  {
    match Classify(StorySections, idx, Pins, name)
    case Current => "current"
    case Past => "past"
    case Background => "hidden"
  }

  /**
   * `past` is exactly the set of names some earlier section lists, other
   * than `ALL`.
   */
  lemma {:induction false} PastSetMembers(secs: seq<Section>, idx: nat, k: Kind, x: string)
    requires idx <= |secs|
    ensures x in PastSet(secs, idx, k) <==>
      x != All && exists i :: 0 <= i < idx && x in Names(secs[i], k)
    decreases idx
  {
    if idx > 0 {
      PastSetMembers(secs, idx - 1, k, x);
      if x != All && x in Names(secs[idx - 1], k) {
        assert x in Visited(secs[idx - 1], k);
      }
    }
  }

  /** `past` only grows as the reader scrolls forward. */
  lemma {:induction false} PastSetMonotone(secs: seq<Section>, i: nat, j: nat, k: Kind)
    requires i <= j <= |secs|
    ensures PastSet(secs, i, k) <= PastSet(secs, j, k)
    decreases j - i
  {
    if i < j {
      PastSetMonotone(secs, i, j - 1, k);
    }
  }

  /**
   * A name listed by an earlier section and not current in the active one is
   * classified past, never current.
   */
  lemma EarlierIsPast(secs: seq<Section>, idx: nat, i: nat, k: Kind, x: string)
    requires i < idx < |secs|
    requires x in Names(secs[i], k) && x != All
    requires x !in CurrentSet(secs[idx], k)
    ensures Classify(secs, idx, k, x) == Past
  {
    PastSetMembers(secs, idx, k, x);
  }

  /** Before the last section, no two sections of the story list a common name. */
  lemma StoryNamesDistinct(i: nat, j: nat, k: Kind, x: string)
    requires i < j < |StorySections| - 1
    requires x in Names(StorySections[i], k)
    ensures x !in Names(StorySections[j], k)
  {
    var ss := StorySections;
    assert ss[0].countries == [] && ss[0].pins == [];
    assert ss[1].countries == ["ESP"] && ss[1].pins == ["Madrid"];
    assert ss[2].countries == ["FRA", "GRC"] && ss[2].pins == ["Paris", "Athens"];
    assert ss[3].countries == ["DEU", "CHN"] && ss[3].pins == ["Düsseldorf", "Shanghai"];
    assert ss[4].countries == ["USA"] && ss[4].pins == ["Philadelphia", "NYC"];
  }

  /**
   * In the story as written, past and current never overlap before the
   * last section, so precedence only matters there.
   */
  lemma StoryPastCurrentDisjoint(idx: nat, k: Kind)
    requires idx < |StorySections| - 1
    ensures PastSet(StorySections, idx, k) !! CurrentSet(StorySections[idx], k)
  {
    assert All !in StorySections[idx].countries;
    forall x | x in PastSet(StorySections, idx, k)
      ensures x !in CurrentSet(StorySections[idx], k)
    {
      PastSetMembers(StorySections, idx, k, x);
      var i :| 0 <= i < idx && x in Names(StorySections[i], k);
      StoryNamesDistinct(i, idx, k, x);
    }
  }

  /**
   * In the last ("explore") section every story country and the rest of
   * the world are current, even though the story countries are also past.
   */
  lemma ExploreEverythingCurrent(x: string)
    requires x in StoryCountries || x == Rest
    ensures DotState(|StorySections| - 1, x) == "current"
    ensures x in StoryCountries ==> x in PastSet(StorySections, |StorySections| - 1, Countries)
  {
    var idx := |StorySections| - 1;
    if x in StoryCountries {
      var i :| 0 <= i < |StoryCountries| && StoryCountries[i] == x;
      assert x in Names(StorySections[if i == 0 then 1 else if i <= 2 then 2 else if i <= 4 then 3 else 4], Countries);
      PastSetMembers(StorySections, idx, Countries, x);
    }
  }

  /** The names of a list other than `ALL`, in order. */
  function WithoutAll(names: seq<string>): (r: seq<string>)
    ensures forall x :: x in r <==> x in names && x != All
    ensures |r| <= |names|
    ensures All !in names ==> r == names
  {
    if names == [] then []
    else (if names[0] == All then [] else [names[0]]) + WithoutAll(names[1..])
  }

  /** Filtering keeps order: the filtered concatenation is the concatenation of the filtered parts. */
  lemma {:induction false} WithoutAllAppend(a: seq<string>, b: seq<string>)
    ensures WithoutAll(a + b) == WithoutAll(a) + WithoutAll(b)
    decreases |a|
  {
    if a == [] {
      assert a + b == b;
    } else {
      assert (a + b)[0] == a[0] && (a + b)[1..] == a[1..] + b;
      WithoutAllAppend(a[1..], b);
    }
  }

  /**
   * The position that scales a country's or pin's animation delay: its
   * first index among the active section's names other than `ALL`, and 0
   * for names the section does not list.
   */
  function DelayRank(s: Section, k: Kind, name: string): (r: nat)
    ensures var ns := WithoutAll(Names(s, k));
      && (name in ns ==> r < |ns| && ns[r] == name && forall j :: 0 <= j < r ==> ns[j] != name)
      && (name !in ns ==> r == 0)
  {
    FirstIndex(WithoutAll(Names(s, k)), name)
  }

  /** `indexOf` on a list that holds the name, or 0. */
  function FirstIndex(ns: seq<string>, name: string): (r: nat)
    ensures name in ns ==> r < |ns| && ns[r] == name && forall j :: 0 <= j < r ==> ns[j] != name
    ensures name !in ns ==> r == 0
  {
    if ns == [] || ns[0] == name then 0
    else if name in ns[1..] then 1 + FirstIndex(ns[1..], name)
    else 0
  }
}
