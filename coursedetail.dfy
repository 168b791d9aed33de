/**
 * The course detail modal: its own copy of the topic list with optimistic completion
 * toggles, and the resource library gathered from all topics.
 */
module CourseDetail {
  import opened Client

  /** `topics.map(t => t.id === id ? { ...t, isCompleted: !t.isCompleted } : t)`. */
  function FlipTopics(ts: seq<Topic>, id: int): (r: seq<Topic>)
    ensures |r| == |ts|
    ensures forall i :: 0 <= i < |ts| && ts[i].id == id ==>
      r[i].isCompleted == !ts[i].isCompleted && r[i] == ts[i].(isCompleted := r[i].isCompleted)
    ensures forall i :: 0 <= i < |ts| && ts[i].id != id ==> r[i] == ts[i]
  {
    seq(|ts|, i requires 0 <= i < |ts| => if ts[i].id == id then ts[i].(isCompleted := !ts[i].isCompleted) else ts[i])
  }

  /** Flipping the same id twice restores the list. */
  lemma FlipTopicsTwice(ts: seq<Topic>, id: int)
    ensures FlipTopics(FlipTopics(ts, id), id) == ts
  {
  }

  /** A list without the id is left as it is. */
  lemma FlipAbsentTopic(ts: seq<Topic>, id: int)
    requires forall i :: 0 <= i < |ts| ==> ts[i].id != id
    ensures FlipTopics(ts, id) == ts
  {
  }

  /** An entry of the library: a resource tagged with the title of its topic. */
  datatype LibraryEntry = LibraryEntry(resource: Resource, topicTitle: string)

  function Tagged(t: Topic): (r: seq<LibraryEntry>)
    ensures |r| == |t.resources|
    ensures forall i :: 0 <= i < |r| ==> r[i] == LibraryEntry(t.resources[i], t.title)
  {
    seq(|t.resources|, i requires 0 <= i < |t.resources| => LibraryEntry(t.resources[i], t.title))
  }

  /** `topics.flatMap(t => t.resources.map(r => ({ ...r, topicTitle: t.title })))`. */
  function Library(ts: seq<Topic>): seq<LibraryEntry>
    decreases |ts|
  {
    if ts == [] then [] else Library(ts[..|ts| - 1]) + Tagged(ts[|ts| - 1])
  }

  /** Total number of resources over the topics. */
  function ResourceTotal(ts: seq<Topic>): nat
    decreases |ts|
  {
    if ts == [] then 0 else ResourceTotal(ts[..|ts| - 1]) + |ts[|ts| - 1].resources|
  }

  /** The library has one entry per resource. */
  lemma {:induction false} LibraryLength(ts: seq<Topic>)
    ensures |Library(ts)| == ResourceTotal(ts)
    decreases |ts|
  {
    if ts != [] {
      LibraryLength(ts[..|ts| - 1]);
    }
  }

  /** The library of two lists of topics is the one library followed by the other. */
  lemma {:induction false} LibraryConcat(a: seq<Topic>, b: seq<Topic>)
    ensures Library(a + b) == Library(a) + Library(b)
    decreases |b|
  {
    if b == [] {
      assert a + b == a;
    } else {
      var b', last := b[..|b| - 1], b[|b| - 1];
      assert (a + b)[..|a + b| - 1] == a + b';
      assert (a + b)[|a + b| - 1] == last;
      calc {
        Library(a + b);
        Library(a + b') + Tagged(last);
        { LibraryConcat(a, b'); }
        Library(a) + Library(b') + Tagged(last);
        Library(a) + (Library(b') + Tagged(last));
      }
    }
  }

  /** `!topics || topics.every(t => !t.resources || t.resources.length === 0)`. */
  predicate NoResources(ts: seq<Topic>) {
    forall i :: 0 <= i < |ts| ==> |ts[i].resources| == 0
  }

  /** "No resources found" is shown exactly when the library is empty. */
  lemma {:induction false} NoResourcesIffEmptyLibrary(ts: seq<Topic>)
    ensures NoResources(ts) <==> Library(ts) == []
    decreases |ts|
  {
    if ts != [] {
      var prefix := ts[..|ts| - 1];
      NoResourcesIffEmptyLibrary(prefix);
      assert NoResources(ts) <==> NoResources(prefix) && |ts[|ts| - 1].resources| == 0 by {
        if NoResources(prefix) && |ts[|ts| - 1].resources| == 0 {
          forall i | 0 <= i < |ts| ensures |ts[i].resources| == 0 {
            if i < |prefix| { assert ts[i] == prefix[i]; }
          }
        }
        if NoResources(ts) {
          forall i | 0 <= i < |prefix| ensures |prefix[i].resources| == 0 { assert prefix[i] == ts[i]; }
        }
      }
    }
  }

  /** The modal's state: the course shown and its local topic list. */
  class DetailState {
    var course: Course
    var localTopics: seq<Topic>

    constructor (c: Course)
      ensures course == c && localTopics == c.topics
    {
      course := c;
      localTopics := c.topics;
    }

    /** A different course resets the local list to its topics. */
    method CourseChanged(c: Course)
      modifies this
      ensures course == c && localTopics == c.topics
    {
      course := c;
      localTopics := c.topics;
    }

    /** The optimistic toggle of one topic. */
    method Toggle(id: int)
      modifies this
      ensures localTopics == FlipTopics(old(localTopics), id)
      ensures course == old(course)
    {
      localTopics := FlipTopics(localTopics, id);
    }
  }
}
