/**
 * The manual completion toggle of the server, the second writer of a topic's
 * completion flag besides the automatic completion of a logged session.
 */
module TopicController {
  import opened Records
  import opened Activity

  /** Reply of toggle: the updated topic, or 404. */
  datatype ToggleReply = Toggled(topic: TopicRow) | NotFound

  /** The topic with its completion flag negated. */
  function Flip(t: TopicRow): (r: TopicRow)
    ensures r.isCompleted == !t.isCompleted
    ensures r.courseId == t.courseId && r.title == t.title
    ensures r.targetMinutes == t.targetMinutes && r.studiedMinutes == t.studiedMinutes
  {
    t.(isCompleted := !t.isCompleted)
  }

  /** Toggling twice restores the topic. */
  lemma FlipInvolution(t: TopicRow)
    ensures Flip(Flip(t)) == t
  {
  }

  /** The topic table after toggling topic `id`: that topic flipped, the others untouched. */
  function TopicsAfterToggle(topics: map<int, TopicRow>, id: int): (r: map<int, TopicRow>)
    ensures r.Keys == topics.Keys
    ensures id in topics ==> r[id] == Flip(topics[id])
    ensures forall k :: k in topics && k != id ==> r[k] == topics[k]
    ensures id !in topics ==> r == topics
  {
    if id in topics then topics[id := Flip(topics[id])] else topics
  }

  /** Toggling the same topic twice restores the table. */
  lemma ToggleTwiceRestores(topics: map<int, TopicRow>, id: int)
    ensures TopicsAfterToggle(TopicsAfterToggle(topics, id), id) == topics
  {
    if id in topics {
      FlipInvolution(topics[id]);
      assert TopicsAfterToggle(TopicsAfterToggle(topics, id), id) == topics[id := Flip(Flip(topics[id]))];
    }
  }

  /**
   * toggle: a known topic has its flag negated in place and is returned; an unknown id
   * gives 404 and leaves the store unchanged.
   */
  method Toggle(s: Server, id: int) returns (r: ToggleReply)
    modifies s
    ensures s.topics == TopicsAfterToggle(old(s.topics), id)
    ensures id in old(s.topics) ==> r == Toggled(Flip(old(s.topics)[id]))
    ensures id !in old(s.topics) ==> r == NotFound
    ensures s.logs == old(s.logs) && s.courses == old(s.courses) && s.users == old(s.users)
  {
    if id in s.topics {
      var topic := s.topics[id];
      topic := topic.(isCompleted := !topic.isCompleted);
      s.topics := s.topics[id := topic];
      r := Toggled(topic);
    } else {
      r := NotFound;
    }
  }

  /**
   * The two writers together: a manual toggle can clear the flag of a topic whose studied
   * time already reaches its positive target, and the next session logged on it, of any
   * non-negative length, sets the flag again.
   */
  lemma ToggleThenLogRecompletes(t: TopicRow, minutes: real)
    requires t.isCompleted && t.targetMinutes > 0 && t.studiedMinutes >= t.targetMinutes as real
    requires minutes >= 0.0
    ensures !Flip(t).isCompleted
    ensures TopicAfterSession(Flip(t), minutes).isCompleted
  {
  }

  /** Logging a session never clears the flag; only the manual toggle does. */
  lemma OnlyToggleClears(t: TopicRow, minutes: real)
    ensures t.isCompleted ==> TopicAfterSession(t, minutes).isCompleted
    ensures t.isCompleted ==> !Flip(t).isCompleted
  {
  }
}
