/** Sorting projected events by time, and by name at the same time (src/linked-memory.js:446). */
module Timeline {
  import opened Common
  import opened LinkedGraph
  import opened StringOrder

  function InsertEvent(timeline: seq<Event>, e: Event): seq<Event> {
    if timeline == [] then [e]
    else if Earlier(timeline[|timeline| - 1], e) then timeline + [e]
    else InsertEvent(timeline[..|timeline| - 1], e) + [timeline[|timeline| - 1]]
  }

  function InTimeOrder(events: seq<Event>): seq<Event> {
    if events == [] then [] else InsertEvent(InTimeOrder(events[..|events| - 1]), events[|events| - 1])
  }

  ghost predicate Ordered(timeline: seq<Event>) {
    forall i, j :: 0 <= i < j < |timeline| ==> Earlier(timeline[i], timeline[j])
  }

  lemma EarlierIsTotal(a: Event, b: Event)
    ensures a.id == b.id || Earlier(a, b) || Earlier(b, a)
  {
    LessIsTotal(a.id, b.id);
  }

  lemma EarlierIsTransitive(a: Event, b: Event, c: Event)
    requires Earlier(a, b) && Earlier(b, c)
    ensures Earlier(a, c)
  {
    if a.timestamp == c.timestamp {
      LessIsTransitive(a.id, b.id, c.id);
    }
  }

  lemma {:induction false} InsertedMembers(timeline: seq<Event>, e: Event)
    ensures multiset(InsertEvent(timeline, e)) == multiset(timeline) + multiset{e}
    ensures forall f :: f in InsertEvent(timeline, e) <==> f in timeline || f == e
  {
    if timeline != [] {
      assert timeline == timeline[..|timeline| - 1] + [timeline[|timeline| - 1]];
      InsertedMembers(timeline[..|timeline| - 1], e);
    }
  }

  lemma OrderedSnoc(timeline: seq<Event>, e: Event)
    requires Ordered(timeline) && forall f :: f in timeline ==> Earlier(f, e)
    ensures Ordered(timeline + [e])
  {
  }

  lemma LastIsLatest(timeline: seq<Event>, e: Event)
    requires Ordered(timeline) && e in timeline
    ensures e == timeline[|timeline| - 1] || Earlier(e, timeline[|timeline| - 1])
  {
  }

  lemma {:induction false} InsertedIsOrdered(timeline: seq<Event>, e: Event)
    requires Ordered(timeline) && forall f :: f in timeline ==> f.id != e.id
    ensures Ordered(InsertEvent(timeline, e))
  {
    if timeline != [] {
      var front, last := timeline[..|timeline| - 1], timeline[|timeline| - 1];
      assert timeline == front + [last];
      if Earlier(last, e) {
        forall f | f in timeline ensures Earlier(f, e) {
          LastIsLatest(timeline, f);
          if f != last { EarlierIsTransitive(f, last, e); }
        }
        OrderedSnoc(timeline, e);
      } else {
        EarlierIsTotal(last, e);
        InsertedIsOrdered(front, e);
        InsertedMembers(front, e);
        OrderedSnoc(InsertEvent(front, e), last);
      }
    }
  }

  lemma {:induction false} SortsByTime(events: seq<Event>)
    requires UniqueIds(events)
    ensures Ordered(InTimeOrder(events)) && multiset(InTimeOrder(events)) == multiset(events)
    ensures forall e :: e in InTimeOrder(events) <==> e in events
  {
    if events != [] {
      var front, last := events[..|events| - 1], events[|events| - 1];
      assert events == front + [last];
      SortsByTime(front);
      InsertedIsOrdered(InTimeOrder(front), last);
      InsertedMembers(InTimeOrder(front), last);
    }
  }

  /** The sorted events are the timeline the edges are described by. */
  lemma InTimeOrderIsTimeline(p: Projection)
    requires UniqueIds(p.events)
    ensures IsTimeline(p, InTimeOrder(p.events))
  {
    SortsByTime(p.events);
  }
}
