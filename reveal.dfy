/**
 * initializeScrollAnimations, animateSection and the per-item entrance schedules of
 * animateTeamMembers, animateProjects and animateContactItems. Timers are modelled as the
 * list of callbacks a batch schedules, each with its delay in milliseconds.
 */
module Reveal {

  /** The section-specific routine animateSection runs for a section id. */
  datatype Entrance = StatsEntrance | TeamEntrance | ProjectsEntrance | ContactEntrance | NoEntrance

  function EntranceFor(id: string): (e: Entrance)
    ensures e == StatsEntrance <==> id == "about"
    ensures e == TeamEntrance <==> id == "team"
    ensures e == ProjectsEntrance <==> id == "projects"
    ensures e == ContactEntrance <==> id == "contact"
  {
    match id
    case "about" => StatsEntrance
    case "team" => TeamEntrance
    case "projects" => ProjectsEntrance
    case "contact" => ContactEntrance
    case _ => NoEntrance
  }

  /** What one scheduled per-item callback does to its element. */
  datatype ItemEffect =
    | RiseIn          // opacity 0 -> 1, translateY(30px) -> translateY(0), transition 0.6s
    | AddClass(name: string)

  /** A setTimeout(callback, delay) that touches the item with the given index. */
  datatype ItemTimer = ItemTimer(item: nat, delay: nat, effect: ItemEffect)

  /** The milliseconds between two consecutive items of each entrance routine. */
  const TeamStep: nat := 200
  const ProjectStep: nat := 300
  const ContactStep: nat := 200

  function ContactClass(index: nat): string {
    if index % 2 == 0 then "animate-fade-left" else "animate-fade-right"
  }

  /** animateTeamMembers over `count` `.member` elements. */
  method AnimateTeamMembers(count: nat) returns (timers: seq<ItemTimer>)
    ensures |timers| == count
    ensures forall i :: 0 <= i < count ==> timers[i].item == i && timers[i].effect == RiseIn
    ensures forall i :: 0 <= i < count ==> timers[i].delay == i * TeamStep
  {
    timers := [];
    for index := 0 to count
      invariant |timers| == index
      invariant forall i :: 0 <= i < index ==> timers[i] == ItemTimer(i, i * TeamStep, RiseIn)
    {
      timers := timers + [ItemTimer(index, index * TeamStep, RiseIn)];
    }
  }

  /** animateProjects over `count` `.project-item` elements. */
  method AnimateProjects(count: nat) returns (timers: seq<ItemTimer>)
    ensures |timers| == count
    ensures forall i :: 0 <= i < count ==> timers[i].item == i && timers[i].effect == AddClass("animate-fade-up")
    ensures forall i :: 0 <= i < count ==> timers[i].delay == i * ProjectStep
  {
    timers := [];
    for index := 0 to count
      invariant |timers| == index
      invariant forall i :: 0 <= i < index ==> timers[i] == ItemTimer(i, i * ProjectStep, AddClass("animate-fade-up"))
    {
      timers := timers + [ItemTimer(index, index * ProjectStep, AddClass("animate-fade-up"))];
    }
  }

  /** animateContactItems over `count` `.contact-item` elements: even items from the left, odd from the right. */
  method AnimateContactItems(count: nat) returns (timers: seq<ItemTimer>)
    ensures |timers| == count
    ensures forall i :: 0 <= i < count ==> timers[i].item == i && timers[i].delay == i * ContactStep
    ensures forall i :: 0 <= i < count ==>
              (timers[i].effect == AddClass("animate-fade-left") <==> i % 2 == 0)
    ensures forall i :: 0 <= i < count ==>
              (timers[i].effect == AddClass("animate-fade-right") <==> i % 2 == 1)
  {
    timers := [];
    for index := 0 to count
      invariant |timers| == index
      invariant forall i :: 0 <= i < index ==> timers[i] == ItemTimer(i, i * ContactStep, AddClass(ContactClass(i)))
    {
      timers := timers + [ItemTimer(index, index * ContactStep, AddClass(ContactClass(index)))];
    }
  }

  /** Delays of a schedule never decrease along document order. */
  predicate InOrder(timers: seq<ItemTimer>) {
    forall i, j :: 0 <= i < j < |timers| ==> timers[i].delay <= timers[j].delay
  }

  /** Item j starts (j - i) * step ms after item i, so the third team member starts 400 ms after the first. */
  lemma StaggerGap(timers: seq<ItemTimer>, step: nat, i: nat, j: nat)
    requires forall k :: 0 <= k < |timers| ==> timers[k].delay == k * step
    requires i <= j < |timers|
    ensures timers[j].delay - timers[i].delay == (j - i) * step
    ensures InOrder(timers)
  {
    assert timers[j].delay - timers[i].delay == (j - i) * step by {
      assert j * step - i * step == (j - i) * step;
    }
    forall a, b | 0 <= a < b < |timers|
      ensures timers[a].delay <= timers[b].delay
    {
      assert a * step <= b * step;
    }
  }

  /** One IntersectionObserverEntry delivered to the section observer. */
  datatype Entry = Entry(section: nat, intersecting: bool)

  /** A reveal callback scheduled by the observer: after `delay` ms, reveal and dispatch `section`. */
  datatype RevealTimer = RevealTimer(section: nat, delay: nat)

  /** The milliseconds between reveals of entries of one batch. */
  const BatchStep: nat := 100

  /**
   * The reveals one observer callback schedules: one per intersecting entry, delayed by
   * 100 ms times the entry's position in the batch (non-intersecting entries included).
   */
  function RevealsFor(entries: seq<Entry>): seq<RevealTimer> {
    if |entries| == 0 then []
    else
      var n := |entries| - 1;
      RevealsFor(entries[..n])
      + (if entries[n].intersecting then [RevealTimer(entries[n].section, n * BatchStep)] else [])
  }

  /**
   * Every intersecting entry is scheduled, whether or not its section was revealed
   * before: sections stay observed, so a re-intersection dispatches again.
   */
  lemma {:induction false} EveryIntersectionScheduled(entries: seq<Entry>, i: nat)
    requires i < |entries| && entries[i].intersecting
    ensures RevealTimer(entries[i].section, i * BatchStep) in RevealsFor(entries)
  {
    var n := |entries| - 1;
    if i < n {
      assert entries[..n][i] == entries[i];
      EveryIntersectionScheduled(entries[..n], i);
    }
  }

  /** Every scheduled reveal comes from an intersecting entry at the position its delay names. */
  lemma {:induction false} OnlyIntersectionsScheduled(entries: seq<Entry>, t: RevealTimer)
    requires t in RevealsFor(entries)
    ensures exists i :: 0 <= i < |entries| && entries[i].intersecting
                        && t == RevealTimer(entries[i].section, i * BatchStep)
  {
    var n := |entries| - 1;
    if t in RevealsFor(entries[..n]) {
      OnlyIntersectionsScheduled(entries[..n], t);
      var i :| 0 <= i < n && entries[..n][i].intersecting
               && t == RevealTimer(entries[..n][i].section, i * BatchStep);
      assert entries[..n][i] == entries[i];
    } else {
      assert entries[n].intersecting && t == RevealTimer(entries[n].section, n * BatchStep);
    }
  }

  /**
   * The section observer: the `.section` elements (all observed, never unobserved), their
   * `visible` classes, the reveal callbacks still pending and the entrance routines run.
   */
  class SectionObserver {
    /** The ids of the `.section` elements in document order. */
    const ids: seq<string>
    /** Which sections have the class `visible`. */
    var visible: seq<bool>
    /** Reveal callbacks scheduled and not yet run. */
    var pending: seq<RevealTimer>
    /** The entrance routines animateSection has run, in order. */
    var dispatched: seq<Entrance>

    predicate Valid()
      reads this
    {
      |visible| == |ids| && forall t :: t in pending ==> t.section < |ids|
    }

    constructor (ids: seq<string>, visible: seq<bool>)
      requires |visible| == |ids|
      ensures Valid() && this.ids == ids && this.visible == visible
      ensures pending == [] && dispatched == []
    {
      this.ids := ids;
      this.visible := visible;
      pending := [];
      dispatched := [];
    }

    /** The observer callback for one batch of entries. */
    method OnIntersect(entries: seq<Entry>)
      requires Valid()
      requires forall e :: e in entries ==> e.section < |ids|
      modifies this`pending
      ensures Valid()
      ensures pending == old(pending) + RevealsFor(entries)
    {
      var index := 0;
      while index < |entries|
        invariant Valid() && 0 <= index <= |entries|
        invariant pending == old(pending) + RevealsFor(entries[..index])
      {
        var entry := entries[index];
        assert entries[..index + 1][..index] == entries[..index];
        if entry.intersecting {
          pending := pending + [RevealTimer(entry.section, index * BatchStep)];
        }
        index := index + 1;
      }
      assert entries[..index] == entries;
    }

    /** The scheduler runs pending callback j: the section gets `visible` and its entrance runs. */
    method Fire(j: nat)
      requires Valid() && j < |pending|
      modifies this`visible, this`pending, this`dispatched
      ensures Valid()
      ensures pending == old(pending[..j] + pending[j + 1..])
      ensures visible == old(visible[pending[j].section := true])
      ensures dispatched == old(dispatched) + [EntranceFor(ids[old(pending[j]).section])]
      ensures forall k :: 0 <= k < |visible| && old(visible[k]) ==> visible[k]
    {
      var t := pending[j];
      pending := pending[..j] + pending[j + 1..];
      visible := visible[t.section := true];
      dispatched := dispatched + [EntranceFor(ids[t.section])];
    }
  }
}
