/** The browser's sentence player. Decoded sentences of the current TTS
    request wait in a queue ordered by sentence index; one plays at a time,
    and when the queue runs dry the request is over. Audio buffers, the
    AudioContext and the base64/WAV decoding are not modelled: whether a
    sentence decodes is an input. */
module TtsPlayer {
  import opened Basics

  /** A queued sentence: its position within its reply and the reply's
      sentence count. */
  datatype Segment = Segment(index: nat, total: nat)

  /** `playing` is the sentence behind `currentSource`. */
  datatype Player = Player(queue: seq<Segment>, isPlaying: bool, currentRequestId: Option<nat>, playing: Option<Segment>)

  const Fresh: Player := Player([], false, None, None)

  predicate Sorted(q: seq<Segment>) {
    forall i, j :: 0 <= i < j < |q| ==> q[i].index <= q[j].index
  }

  /** The states the player can reach: the queue is ordered, `isPlaying`
      says whether a source is playing, and nothing waits while nothing
      plays. */
  predicate Valid(p: Player) {
    && Sorted(p.queue)
    && (p.isPlaying <==> p.playing.Some?)
    && (!p.isPlaying ==> p.queue == [])
  }

  /** `push` followed by the stable `sort` by index, on a queue that is
      already ordered: the new sentence goes after every queued sentence
      whose index is not larger. */
  function Insert(q: seq<Segment>, s: Segment): (r: seq<Segment>)
    ensures |r| == |q| + 1
  {
    if q == [] then [s]
    else if s.index < q[0].index then [s] + q
    else [q[0]] + Insert(q[1..], s)
  }

  /** `playNext()`. */
  function PlayNext(p: Player): (r: Player)
    ensures p.isPlaying || p.queue == [] ==> r == p
    ensures !p.isPlaying && p.queue != [] ==>
      r.isPlaying && r.playing == Some(p.queue[0]) && r.queue == p.queue[1..] && r.currentRequestId == p.currentRequestId
  {
    if p.isPlaying || p.queue == [] then p
    else p.(queue := p.queue[1..], isPlaying := true, playing := Some(p.queue[0]))
  }

  /** `handleFullAudio(payload)`: a sentence of another request than the
      current one is dropped; otherwise its request becomes the current one,
      and, when it decodes, it is queued and playback starts if idle. */
  function HandleFullAudio(p: Player, s: Segment, requestId: nat, decodes: bool): (r: Player)
    ensures p.currentRequestId.Some? && requestId != p.currentRequestId.value ==> r == p
    ensures p.currentRequestId.None? || requestId == p.currentRequestId.value ==> r.currentRequestId == Some(requestId)
    ensures !decodes ==> r.queue == p.queue && r.isPlaying == p.isPlaying && r.playing == p.playing
    ensures p.isPlaying ==> r.isPlaying && r.playing == p.playing
  {
    if p.currentRequestId.Some? && requestId != p.currentRequestId.value then p
    else
      var adopted := p.(currentRequestId := Some(requestId));
      if !decodes then adopted
      else
        var queued := adopted.(queue := Insert(adopted.queue, s));
        if !queued.isPlaying then PlayNext(queued) else queued
  }

  /** The `onended` callback of the playing source. The flag says whether
      `onComplete` fired, which the voice agent turns into a
      `playback_complete` message. */
  function OnEnded(p: Player): (r: (Player, bool))
    ensures r.1 <==> p.queue == []
    ensures r.1 ==> r.0 == Fresh
    ensures !r.1 ==> && r.0.isPlaying && r.0.playing == Some(p.queue[0]) && r.0.queue == p.queue[1..]
                     && r.0.currentRequestId == p.currentRequestId
  {
    var idle := p.(isPlaying := false, playing := None);
    if |p.queue| > 0 then (PlayNext(idle), false)
    else (idle.(currentRequestId := None), true)
  }

  /** `stopAll()`. */
  function StopAll(p: Player): (r: Player)
    ensures r == Fresh
  {
    Player([], false, None, None)
  }

  /** Every sentence the player holds: queued or playing. */
  function Held(p: Player): multiset<Segment> {
    multiset(p.queue) + (if p.playing.Some? then multiset{p.playing.value} else multiset{})
  }

  // ---------------------------------------------------------------------
  // The queue

  /** Number of leading entries of an ordered queue whose index is not
      larger than `k`. */
  function NotAfter(q: seq<Segment>, k: nat): (n: nat)
    ensures n <= |q|
  {
    if q == [] || k < q[0].index then 0 else 1 + NotAfter(q[1..], k)
  }

  /** The insertion is stable: the sentence goes right after the queued
      sentences with an index not larger than its own, which keep their
      order, and before the rest. */
  lemma {:induction false} InsertSplits(q: seq<Segment>, s: Segment)
    ensures var k := NotAfter(q, s.index); Insert(q, s) == q[..k] + [s] + q[k..]
    decreases |q|
  {
    if q != [] && s.index >= q[0].index {
      InsertSplits(q[1..], s);
      var k := NotAfter(q[1..], s.index);
      assert q[..k + 1] == [q[0]] + q[1..][..k];
      assert q[k + 1..] == q[1..][k..];
    }
  }

  /** Insertion keeps an ordered queue ordered. */
  lemma {:induction false} InsertSorted(q: seq<Segment>, s: Segment)
    requires Sorted(q)
    ensures Sorted(Insert(q, s))
    ensures Insert(q, s)[0] == (if q != [] && q[0].index <= s.index then q[0] else s)
    decreases |q|
  {
    if q != [] && s.index >= q[0].index {
      InsertSorted(q[1..], s);
      var r := Insert(q, s);
      assert r == [q[0]] + Insert(q[1..], s);
      forall i, j | 0 <= i < j < |r| ensures r[i].index <= r[j].index {
        if i == 0 {
          var t := Insert(q[1..], s);
          assert r[j] == t[j - 1];
          if q[1..] != [] && q[1..][0].index <= s.index {
            InsertMember(q[1..], s, j - 1);
          }
        }
      }
    }
  }

  /** Each entry of an insertion is the new sentence or a queued one. */
  lemma InsertMember(q: seq<Segment>, s: Segment, i: nat)
    requires i < |q| + 1
    ensures Insert(q, s)[i] == s || Insert(q, s)[i] in q
  {
    InsertSplits(q, s);
  }

  /** Insertion loses nothing and duplicates nothing. */
  lemma InsertHolds(q: seq<Segment>, s: Segment)
    ensures multiset(Insert(q, s)) == multiset(q) + multiset{s}
  {
    InsertSplits(q, s);
    var k := NotAfter(q, s.index);
    assert q == q[..k] + q[k..];
  }

  // ---------------------------------------------------------------------
  // Properties

  /** A sentence of a request other than the current one changes nothing. */
  lemma DropsOtherRequest(p: Player, s: Segment, requestId: nat, decodes: bool)
    requires p.currentRequestId.Some? && requestId != p.currentRequestId.value
    ensures HandleFullAudio(p, s, requestId, decodes) == p
  {
  }

  /** Without a current request, any sentence makes its request current,
      even one that then fails to decode; a sentence that does not decode
      changes nothing else. */
  lemma AdoptsRequest(p: Player, s: Segment, requestId: nat, decodes: bool)
    requires p.currentRequestId.None? || p.currentRequestId == Some(requestId)
    ensures HandleFullAudio(p, s, requestId, decodes).currentRequestId == Some(requestId)
    ensures !decodes ==> HandleFullAudio(p, s, requestId, decodes) == p.(currentRequestId := Some(requestId))
  {
  }

  /** An accepted sentence that decodes is held, in addition to everything
      held before, and the player stays in a reachable state. */
  lemma AcceptedIsHeld(p: Player, s: Segment, requestId: nat)
    requires Valid(p)
    requires p.currentRequestId.None? || p.currentRequestId == Some(requestId)
    ensures var r := HandleFullAudio(p, s, requestId, true);
      Valid(r) && Held(r) == Held(p) + multiset{s} && r.isPlaying
  {
    InsertSorted(p.queue, s);
    InsertHolds(p.queue, s);
    var q := Insert(p.queue, s);
    if !p.isPlaying {
      assert q == [s];
      assert q[1..] == [];
    } else {
      assert Sorted(q);
    }
  }

  /** Every event keeps the player in a reachable state. */
  lemma EventsKeepValid(p: Player, s: Segment, requestId: nat, decodes: bool)
    requires Valid(p)
    ensures Valid(HandleFullAudio(p, s, requestId, decodes))
    ensures Valid(OnEnded(p).0)
    ensures Valid(StopAll(p))
  {
    if (p.currentRequestId.None? || p.currentRequestId == Some(requestId)) && decodes {
      AcceptedIsHeld(p, s, requestId);
    }
    if p.queue != [] {
      var r := OnEnded(p).0;
      assert r.queue == p.queue[1..];
      assert Sorted(r.queue) by {
        forall i, j | 0 <= i < j < |r.queue| ensures r.queue[i].index <= r.queue[j].index {
          assert r.queue[i] == p.queue[i + 1] && r.queue[j] == p.queue[j + 1];
        }
      }
    }
  }

  /** The sentence that starts playing has the smallest index of those
      waiting: the queue just after an insertion, while nothing plays. */
  lemma PlaysLowestIndex(p: Player)
    requires Sorted(p.queue) && !p.isPlaying && p.queue != []
    ensures forall x :: x in p.queue ==> PlayNext(p).playing.value.index <= x.index
  {
    forall x | x in p.queue ensures p.queue[0].index <= x.index {
      var i :| 0 <= i < |p.queue| && p.queue[i] == x;
      if i > 0 { assert p.queue[0].index <= p.queue[i].index; }
    }
  }

  /** When a sentence ends, the next waiting sentence plays, the same
      request stays current and completion is not signalled; when none
      waits, the player becomes idle, forgets the request and signals
      completion. */
  lemma EndedAdvances(p: Player)
    requires Valid(p) && p.isPlaying
    ensures var (r, complete) := OnEnded(p);
      && complete == (p.queue == [])
      && (p.queue == [] ==> r == Fresh)
      && (p.queue != [] ==> r.playing == Some(p.queue[0]) && r.queue == p.queue[1..]
                              && r.currentRequestId == p.currentRequestId)
      && Held(r) + multiset{p.playing.value} == Held(p)
  {
    if p.queue != [] {
      assert p.queue == [p.queue[0]] + p.queue[1..];
    }
  }

  /** After a stop the next sentence of any request is accepted: the
      request filter is reset along with the queue. */
  lemma StopThenAnyRequest(p: Player, s: Segment, requestId: nat)
    ensures var r := HandleFullAudio(StopAll(p), s, requestId, true);
      r.currentRequestId == Some(requestId) && r.playing == Some(s) && r.queue == []
  {
  }
}
