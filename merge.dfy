/**
 * The merge loop of `parse`: XML children arrive one by one; ordinary ones
 * are stored by id, `highlightText` children are folded into the text of
 * the annotation they belong to (or held back until it arrives), the first
 * video id found in a `log_data` attribute is kept, and the stored
 * annotations are finally sorted by start time.
 */
module Merge {
  import opened Wrappers
  import opened Text
  import opened Records

  /**
   * The loop's variables. `order` is the insertion order of the
   * `annotations` dictionary, which Python keeps: a new key goes to the end,
   * assigning to an existing key keeps its place.
   */
  datatype MergeState = MergeState(
    videoId: Option<string>,
    annotations: map<Key, Annotation>,
    order: seq<Key>,
    pending: map<Key, string>)

  /** The insertion order lists every stored key exactly once. */
  ghost predicate Valid(s: MergeState)
  {
    && (forall k :: k in s.annotations <==> k in s.order)
    && (forall i, j :: 0 <= i < j < |s.order| ==> s.order[i] != s.order[j])
  }

  const Initial: MergeState := MergeState(None, map[], [], map[])

  const Marker: string := "a-v="

  /** The text after the first `a-v=` of a `log_data` that has one. */
  function AfterMarker(logData: string): string
    requires Contains(logData, Marker)
  {
    logData[Find(logData, Marker).value + |Marker|..]
  }

  /** Position `k` of the text after the marker ends a video id: the end, a `&`, or another `a-v=`. */
  predicate IdEndsAt(after: string, k: nat)
    requires k <= |after|
  {
    k == |after| || after[k] == '&' || OccursAt(after, Marker, k)
  }

  /**
   * `log_data.split("a-v=")[1].split("&")[0] or None`: the text after the
   * first `a-v=`, up to the first `&` or the next `a-v=`; nothing when that
   * is empty or there is no `a-v=`. The id is the longest prefix of the text
   * after the marker that neither holds a `&` nor has a marker starting in it.
   */
  function VideoIdOf(logData: string): (r: Option<string>)
    ensures r.None? <==> !Contains(logData, Marker) || IdEndsAt(AfterMarker(logData), 0)
    ensures r.Some? ==>
      && Contains(logData, Marker)
      && var after := AfterMarker(logData);
      && r.value != "" && r.value <= after && '&' !in r.value
      && (forall j :: 0 <= j < |r.value| ==> !OccursAt(after, Marker, j))
      && IdEndsAt(after, |r.value|)
  {
    match Find(logData, Marker)
    case None => None
    case Some(i) =>
      var after := logData[i + |Marker|..];
      var segment := match Find(after, Marker) case None => after case Some(j) => after[..j];
      var id := Split(segment, '&')[0];
      SplitFirstPiece(segment, '&');
      assert IdEndsAt(after, |id|);
      assert id == "" <==> IdEndsAt(after, 0);
      if id == "" then None else Some(id)
  }

  /** assnotations.py:142-144: a `highlight` annotation takes the text held back for its id. */
  function TakePending(pending: map<Key, string>, a: Annotation): (Annotation, map<Key, string>)
  {
    if a.kind == Some("highlight") && a.id in pending
    then (a.(text := Some(pending[a.id])), pending - {a.id})
    else (a, pending)
  }

  /** A child of style `highlightText` with text is folded into another annotation instead of being stored. */
  predicate FoldsIn(a: Annotation)
  {
    a.style == Some("highlightText") && Truthy(a.text)
  }

  /** `s` and then `t` on a new line. */
  function AppendLine(s: string, t: string): string
  {
    s + "\n" + t
  }

  /** One pass of the loop body over the child `c`. */
  function Absorb(s: MergeState, c: Child): MergeState
  {
    var (a, pending) := TakePending(s.pending, c.annotation);
    var videoId := if s.videoId.None? && Contains(c.logData, Marker) then VideoIdOf(c.logData) else s.videoId;
    if FoldsIn(a) then
      var main, t := c.spaceRelative, a.text.value;
      if main !in s.annotations then
        var held := if main !in pending then t else AppendLine(pending[main], t);
        MergeState(videoId, s.annotations, s.order, pending[main := held])
      else
        var m := s.annotations[main];
        var text := if !Truthy(m.text) then t else AppendLine(m.text.value, t);
        MergeState(videoId, s.annotations[main := m.(text := Some(text))], s.order, pending)
    else
      var order := if a.id in s.annotations then s.order else s.order + [a.id];
      MergeState(videoId, s.annotations[a.id := a], order, pending)
  }

  /** The loop's state after the given children, in order. */
  function MergeAll(children: seq<Child>): MergeState
  {
    if children == [] then Initial
    else Absorb(MergeAll(children[..|children| - 1]), children[|children| - 1])
  }

  /** Every pass keeps the insertion order in step with the stored keys. */
  lemma AbsorbKeepsValid(s: MergeState, c: Child)
    requires Valid(s)
    ensures Valid(Absorb(s, c))
  {
    var (a, pending) := TakePending(s.pending, c.annotation);
    if !FoldsIn(a) && a.id !in s.annotations {
      var order := s.order + [a.id];
      forall i, j | 0 <= i < j < |order| ensures order[i] != order[j] {
        if j == |order| - 1 {
          assert order[i] in s.order;
        }
      }
    }
  }

  /** The state after any children is valid. */
  lemma {:induction false} MergeAllValid(children: seq<Child>)
    ensures Valid(MergeAll(children))
  {
    if children != [] {
      MergeAllValid(children[..|children| - 1]);
      AbsorbKeepsValid(MergeAll(children[..|children| - 1]), children[|children| - 1]);
    }
  }

  /**
   * A `highlightText` child with text is never stored: the stored keys and
   * their order stay as they were. Its text goes onto the main annotation
   * when that is already stored (replacing an empty text), and is otherwise
   * held back under the main annotation's id.
   */
  lemma HighlightTextFoldsIn(s: MergeState, c: Child)
    requires FoldsIn(TakePending(s.pending, c.annotation).0)
    ensures
      var s' := Absorb(s, c);
      var (a, pending) := TakePending(s.pending, c.annotation);
      var main, t := c.spaceRelative, a.text.value;
      && s'.annotations.Keys == s.annotations.Keys
      && s'.order == s.order
      && (forall k :: k in s.annotations && k != main ==> s'.annotations[k] == s.annotations[k])
      && (main in s.annotations ==>
            && s'.pending == pending
            && s'.annotations[main] == s.annotations[main].(text := s'.annotations[main].text)
            && s'.annotations[main].text == Some(
                 if Truthy(s.annotations[main].text) then s.annotations[main].text.value + "\n" + t else t))
      && (main !in s.annotations ==>
            && s'.annotations == s.annotations
            && s'.pending.Keys == pending.Keys + {main}
            && s'.pending[main] == (if main in pending then pending[main] + "\n" + t else t)
            && (forall k :: k in pending && k != main ==> s'.pending[k] == pending[k]))
  {
  }

  /**
   * A `highlight` annotation whose id has held-back text is stored with that
   * text, and the held-back entry is gone.
   */
  lemma HighlightTakesHeldText(s: MergeState, c: Child)
    requires c.annotation.kind == Some("highlight") && c.annotation.id in s.pending
    requires c.annotation.style != Some("highlightText")
    ensures
      var s' := Absorb(s, c);
      var id := c.annotation.id;
      && id in s'.annotations && s'.annotations[id] == c.annotation.(text := Some(s.pending[id]))
      && id !in s'.pending
      && s'.pending == s.pending - {id}
  {
  }

  /**
   * Any other child is stored under its own id, replacing an earlier one
   * with that id in its place, or going last; nothing else that is stored changes.
   */
  lemma OrdinaryChildStored(s: MergeState, c: Child)
    requires !FoldsIn(TakePending(s.pending, c.annotation).0)
    ensures
      var s' := Absorb(s, c);
      var a := TakePending(s.pending, c.annotation).0;
      && s'.annotations == s.annotations[a.id := a]
      && s'.order == (if a.id in s.annotations then s.order else s.order + [a.id])
      && s'.pending == TakePending(s.pending, c.annotation).1
  {
  }

  /** The first child, from the front, whose `log_data` yields a video id gives it. */
  function FirstVideoId(children: seq<Child>): Option<string>
  {
    if children == [] then None
    else if VideoIdOf(children[0].logData).Some? then VideoIdOf(children[0].logData)
    else FirstVideoId(children[1..])
  }

  lemma {:induction false} FirstVideoIdSnoc(children: seq<Child>, c: Child)
    ensures FirstVideoId(children + [c])
         == if FirstVideoId(children).Some? then FirstVideoId(children) else VideoIdOf(c.logData)
  {
    if children != [] {
      assert (children + [c])[1..] == children[1..] + [c];
      FirstVideoIdSnoc(children[1..], c);
    } else {
      assert [c][1..] == [];
    }
  }

  /** Once a video id is found, later children never replace it: the loop keeps the first one. */
  lemma {:induction false} MergeKeepsFirstVideoId(children: seq<Child>)
    ensures MergeAll(children).videoId == FirstVideoId(children)
  {
    if children != [] {
      var init, c := children[..|children| - 1], children[|children| - 1];
      MergeKeepsFirstVideoId(init);
      FirstVideoIdSnoc(init, c);
      assert init + [c] == children;
    }
  }

  /** `start or -1`: a missing start and a start of zero both sort as -1. */
  function SortKey(a: Annotation): real
  {
    if a.start.Some? && a.start.value != 0.0 then a.start.value else -1.0
  }

  /** `x` placed before the first element whose key is not smaller. */
  function Insert(x: Annotation, s: seq<Annotation>): seq<Annotation>
  {
    if s == [] || SortKey(x) <= SortKey(s[0]) then [x] + s else [s[0]] + Insert(x, s[1..])
  }

  /** `sorted(values, key=lambda k: k["start"] or -1)`, as an insertion sort. */
  function SortByStart(s: seq<Annotation>): seq<Annotation>
  {
    if s == [] then [] else Insert(s[0], SortByStart(s[1..]))
  }

  predicate SortedByStart(s: seq<Annotation>)
  {
    forall i, j :: 0 <= i < j < |s| ==> SortKey(s[i]) <= SortKey(s[j])
  }

  /** The elements of `s` whose key is `k`, in their order in `s`. */
  function WithKey(s: seq<Annotation>, k: real): seq<Annotation>
  {
    if s == [] then [] else (if SortKey(s[0]) == k then [s[0]] else []) + WithKey(s[1..], k)
  }

  /** Every key in `s` is at least `b`. */
  predicate KeysAtLeast(b: real, s: seq<Annotation>)
  {
    forall i :: 0 <= i < |s| ==> b <= SortKey(s[i])
  }

  lemma {:induction false} InsertKeysAtLeast(b: real, x: Annotation, s: seq<Annotation>)
    requires KeysAtLeast(b, s) && b <= SortKey(x)
    ensures KeysAtLeast(b, Insert(x, s))
  {
    if s != [] && SortKey(x) > SortKey(s[0]) {
      InsertKeysAtLeast(b, x, s[1..]);
    }
  }

  lemma {:induction false} InsertSorted(x: Annotation, s: seq<Annotation>)
    requires SortedByStart(s)
    ensures SortedByStart(Insert(x, s))
  {
    if s != [] && SortKey(x) > SortKey(s[0]) {
      InsertSorted(x, s[1..]);
      assert KeysAtLeast(SortKey(s[0]), s[1..]);
      InsertKeysAtLeast(SortKey(s[0]), x, s[1..]);
    }
  }

  lemma {:induction false} InsertMultiset(x: Annotation, s: seq<Annotation>)
    ensures multiset(Insert(x, s)) == multiset(s) + multiset{x}
  {
    if s != [] && SortKey(x) > SortKey(s[0]) {
      InsertMultiset(x, s[1..]);
      assert s == [s[0]] + s[1..];
    }
  }

  lemma {:induction false} InsertWithKey(x: Annotation, s: seq<Annotation>, k: real)
    ensures WithKey(Insert(x, s), k) == (if SortKey(x) == k then [x] else []) + WithKey(s, k)
  {
    var hx := if SortKey(x) == k then [x] else [];
    if s == [] || SortKey(x) <= SortKey(s[0]) {
      var r := [x] + s;
      assert r[0] == x && r[1..] == s;
      assert WithKey(r, k) == hx + WithKey(s, k);
    } else {
      var rest := Insert(x, s[1..]);
      var r := [s[0]] + rest;
      InsertWithKey(x, s[1..], k);
      var h0 := if SortKey(s[0]) == k then [s[0]] else [];
      assert r[0] == s[0] && r[1..] == rest;
      assert WithKey(r, k) == h0 + (hx + WithKey(s[1..], k));
      assert WithKey(s, k) == h0 + WithKey(s[1..], k);
      assert h0 == [] || hx == [];
    }
  }

  /**
   * Sorting by start time is a stable sort: the result is ordered by key,
   * holds the same annotations, and annotations with equal keys keep their
   * relative order.
   */
  lemma {:induction false} SortByStartCorrect(s: seq<Annotation>)
    ensures SortedByStart(SortByStart(s))
    ensures multiset(SortByStart(s)) == multiset(s)
    ensures forall k :: WithKey(SortByStart(s), k) == WithKey(s, k)
  {
    if s != [] {
      SortByStartCorrect(s[1..]);
      var t := SortByStart(s[1..]);
      InsertSorted(s[0], t);
      InsertMultiset(s[0], t);
      forall k ensures WithKey(SortByStart(s), k) == WithKey(s, k) {
        InsertWithKey(s[0], t, k);
      }
      assert s == [s[0]] + s[1..];
    }
  }

  /** The stored annotations in the dictionary's insertion order. */
  function Values(annotations: map<Key, Annotation>, order: seq<Key>): seq<Annotation>
    requires forall k :: k in order ==> k in annotations
  {
    seq(|order|, i requires 0 <= i < |order| => annotations[order[i]])
  }

  /** A list without repeats has as many distinct elements as entries. */
  lemma {:induction false} DistinctCount(order: seq<Key>)
    requires forall i, j :: 0 <= i < j < |order| ==> order[i] != order[j]
    ensures |set k | k in order| == |order|
  {
    if order != [] {
      var rest := order[1..];
      DistinctCount(rest);
      assert (set k | k in order) == (set k | k in rest) + {order[0]};
      assert order[0] !in rest by {
        forall j | 0 <= j < |rest| ensures rest[j] != order[0] {
          assert rest[j] == order[j + 1];
        }
      }
    }
  }

  /**
   * `annotations.values()` of a well-formed state: one entry per stored
   * annotation, and every stored annotation appears, under its own key.
   */
  lemma ValuesListsEachOnce(s: MergeState)
    requires Valid(s)
    ensures
      var vs := Values(s.annotations, s.order);
      && |vs| == |s.annotations|
      && forall k :: k in s.annotations ==>
           exists i :: 0 <= i < |vs| && s.order[i] == k && vs[i] == s.annotations[k]
  {
    DistinctCount(s.order);
    assert s.annotations.Keys == set k | k in s.order;
    forall k | k in s.annotations
      ensures exists i :: 0 <= i < |s.order| && s.order[i] == k
    {
      assert k in s.order;
    }
  }

  /**
   * `parse` after the XML reading: the loop over the children updates the
   * video id, the annotations dictionary and the held-back highlight texts
   * in place; the result is the video id, the stored annotations sorted by
   * start, and the texts still held back.
   */
  method Parse(children: seq<Child>) returns (videoId: Option<string>, sorted: seq<Annotation>, pending: map<Key, string>)
    ensures
      var s := MergeAll(children);
      && videoId == s.videoId
      && pending == s.pending
      && Valid(s)
      && sorted == SortByStart(Values(s.annotations, s.order))
  {
    var annotations: map<Key, Annotation> := map[];
    var order: seq<Key> := [];
    videoId, pending := None, map[];
    var i := 0;
    while i < |children|
      invariant 0 <= i <= |children|
      invariant MergeState(videoId, annotations, order, pending) == MergeAll(children[..i])
    {
      var child := children[i];
      var a := child.annotation;
      if a.kind == Some("highlight") && a.id in pending {
        a := a.(text := Some(pending[a.id]));
        pending := pending - {a.id};
      }
      if videoId.None? && Contains(child.logData, Marker) {
        videoId := VideoIdOf(child.logData);
      }
      if a.style == Some("highlightText") && Truthy(a.text) {
        var main := child.spaceRelative;
        if main !in annotations {
          if main !in pending {
            pending := pending[main := a.text.value];
          } else {
            pending := pending[main := pending[main] + "\n" + a.text.value];
          }
        } else if !Truthy(annotations[main].text) {
          annotations := annotations[main := annotations[main].(text := a.text)];
        } else {
          var joined := annotations[main].text.value + "\n" + a.text.value;
          annotations := annotations[main := annotations[main].(text := Some(joined))];
        }
      } else {
        if a.id !in annotations {
          order := order + [a.id];
        }
        annotations := annotations[a.id := a];
      }
      assert children[..i + 1][..i] == children[..i];
      i := i + 1;
    }
    assert children[..i] == children;
    MergeAllValid(children);
    sorted := SortByStart(Values(annotations, order));
  }
}
