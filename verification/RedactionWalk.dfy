/**
 The walk of `scrubSnapshot` in place: objects are maps on the heap, rewritten key by key.  Objects may be
 shared; nothing is assumed about aliasing.
 */
module RedactionWalk {
  import opened Redaction

  /** A decoded value: objects are references, lists hold values, and the rest are scalars. */
  datatype Value = Scalar(scalar: Json) | List(elements: seq<Value>) | Ref(node: Node)

  class Node {
    var fields: map<string, Value>

    constructor (fields: map<string, Value>)
      ensures this.fields == fields
    {
      this.fields := fields;
    }
  }

  const MARKER: Value := Scalar(REDACTED)

  /** What the objects of a heap hold. */
  type Contents = map<Node, map<string, Value>>

  ghost function Snapshot(heap: set<Node>): Contents
    reads heap
  {
    map n | n in heap :: n.fields
  }

  predicate IsScalar(j: Json) {
    !j.Array? && !j.Object?
  }

  /** `v` is exactly the document `j`. */
  ghost predicate Holds(v: Value, j: Json, h: Contents)
    decreases j
  {
    match v
    case Scalar(x) => IsScalar(x) && j == x
    case List(elements) =>
      && j.Array? && |j.items| == |elements|
      && forall i :: 0 <= i < |elements| ==> Holds(elements[i], j.items[i], h)
    case Ref(n) =>
      && n in h && j.Object? && h[n].Keys == j.fields.Keys
      && forall k :: k in j.fields ==> Holds(h[n][k], j.fields[k], h)
  }

  /** `v` is the document `j`, except that some sensitive keys may already hold the marker. */
  ghost predicate PartlyHolds(v: Value, j: Json, h: Contents)
    decreases j
  {
    match v
    case Scalar(x) => IsScalar(x) && j == x
    case List(elements) =>
      && j.Array? && |j.items| == |elements|
      && forall i :: 0 <= i < |elements| ==> PartlyHolds(elements[i], j.items[i], h)
    case Ref(n) =>
      && n in h && j.Object? && h[n].Keys == j.fields.Keys
      && forall k :: k in j.fields ==> PartlyHolds(h[n][k], j.fields[k], h) || (Sensitive(k) && h[n][k] == MARKER)
  }

  lemma {:induction false} HoldsPartly(v: Value, j: Json, h: Contents)
    requires Holds(v, j, h)
    ensures PartlyHolds(v, j, h)
    decreases j
  {
    match v
    case Scalar(_) =>
    case List(elements) =>
      forall i | 0 <= i < |elements| ensures PartlyHolds(elements[i], j.items[i], h) {
        HoldsPartly(elements[i], j.items[i], h);
      }
    case Ref(n) =>
      forall k | k in j.fields ensures PartlyHolds(h[n][k], j.fields[k], h) {
        HoldsPartly(h[n][k], j.fields[k], h);
      }
  }

  /** All that a walk does to the heap: it puts the marker under sensitive keys. */
  ghost predicate OnlyRedacts(h: Contents, g: Contents) {
    && h.Keys == g.Keys
    && forall n :: n in h ==> FieldsRedacted(h[n], g[n])
  }

  ghost predicate FieldsRedacted(before: map<string, Value>, after: map<string, Value>) {
    && before.Keys == after.Keys
    && forall k :: k in before ==> after[k] == before[k] || (Sensitive(k) && after[k] == MARKER)
  }

  lemma {:induction false} PartlyStays(v: Value, j: Json, h: Contents, g: Contents)
    requires PartlyHolds(v, j, h) && OnlyRedacts(h, g)
    ensures PartlyHolds(v, j, g)
    decreases j
  {
    match v
    case Scalar(_) =>
    case List(elements) =>
      forall i | 0 <= i < |elements| ensures PartlyHolds(elements[i], j.items[i], g) {
        PartlyStays(elements[i], j.items[i], h, g);
      }
    case Ref(n) =>
      assert FieldsRedacted(h[n], g[n]);
      forall k | k in j.fields
        ensures PartlyHolds(g[n][k], j.fields[k], g) || (Sensitive(k) && g[n][k] == MARKER)
      {
        if !(Sensitive(k) && g[n][k] == MARKER) { PartlyStays(h[n][k], j.fields[k], h, g); }
      }
  }

  lemma {:induction false} ScrubbedStays(v: Value, j: Json, h: Contents, g: Contents)
    requires Holds(v, Scrub(j), h) && OnlyRedacts(h, g)
    ensures Holds(v, Scrub(j), g)
    decreases j
  {
    match v
    case Scalar(_) =>
    case List(elements) =>
      forall i | 0 <= i < |elements| ensures Holds(elements[i], Scrub(j).items[i], g) {
        assert Scrub(j).items[i] == Scrub(j.items[i]);
        ScrubbedStays(elements[i], j.items[i], h, g);
      }
    case Ref(n) =>
      assert FieldsRedacted(h[n], g[n]);
      forall k | k in Scrub(j).fields
        ensures Holds(g[n][k], Scrub(j).fields[k], g)
      {
        if !Sensitive(k) { ScrubbedStays(h[n][k], j.fields[k], h, g); }
      }
  }

  /**
   Whatever is shared, a value that was the document, partly redacted perhaps, is the scrubbed document
   afterwards, and the walk did nothing to the heap but redact.
   */
  method Walk(v: Value, ghost j: Json, ghost heap: set<Node>)
    requires PartlyHolds(v, j, Snapshot(heap))
    modifies heap
    ensures Holds(v, Scrub(j), Snapshot(heap)) && OnlyRedacts(old(Snapshot(heap)), Snapshot(heap))
    decreases j
  {
    match v {
      case Scalar(_) =>
      case List(elements) => WalkList(elements, j, heap);
      case Ref(n) => WalkNode(n, j, heap);
    }
  }

  method WalkList(elements: seq<Value>, ghost j: Json, ghost heap: set<Node>)
    requires PartlyHolds(List(elements), j, Snapshot(heap))
    modifies heap
    ensures Holds(List(elements), Scrub(j), Snapshot(heap)) && OnlyRedacts(old(Snapshot(heap)), Snapshot(heap))
    decreases j, 0
  {
    for i := 0 to |elements|
      invariant OnlyRedacts(old(Snapshot(heap)), Snapshot(heap))
      invariant PartlyHolds(List(elements), j, Snapshot(heap))
      invariant forall x :: 0 <= x < i ==> Holds(elements[x], Scrub(j.items[x]), Snapshot(heap))
    {
      ghost var h := Snapshot(heap);
      Walk(elements[i], j.items[i], heap);
      PartlyStays(List(elements), j, h, Snapshot(heap));
      forall x | 0 <= x < i ensures Holds(elements[x], Scrub(j.items[x]), Snapshot(heap)) {
        ScrubbedStays(elements[x], j.items[x], h, Snapshot(heap));
      }
    }
  }

  /** What one key of an object must hold in the end. */
  ghost predicate KeyDone(fields: map<string, Value>, k: string, j: Json, h: Contents)
    requires j.Object? && k in j.fields && k in fields
  {
    if Sensitive(k) then fields[k] == MARKER else Holds(fields[k], Scrub(j.fields[k]), h)
  }

  ghost predicate KeysDone(n: Node, todo: set<string>, j: Json, h: Contents) {
    && j.Object? && n in h && h[n].Keys == j.fields.Keys
    && forall k :: k in j.fields && k !in todo ==> KeyDone(h[n], k, j, h)
  }

  /** One more key is done, and those done before stay done. */
  lemma KeyStep(n: Node, todo: set<string>, key: string, j: Json, h: Contents, g: Contents)
    requires KeysDone(n, todo, j, h) && OnlyRedacts(h, g) && key in j.fields
    requires KeyDone(g[n], key, j, g)
    ensures KeysDone(n, todo - {key}, j, g)
  {
    assert FieldsRedacted(h[n], g[n]);
    forall k | k in j.fields && k !in todo - {key} ensures KeyDone(g[n], k, j, g) {
      if k != key {
        assert KeyDone(h[n], k, j, h);
        if !Sensitive(k) { ScrubbedStays(h[n][k], j.fields[k], h, g); }
      }
    }
  }

  lemma RedactsTransitive(a: Contents, b: Contents, c: Contents)
    requires OnlyRedacts(a, b) && OnlyRedacts(b, c)
    ensures OnlyRedacts(a, c)
  {
    forall n | n in a ensures FieldsRedacted(a[n], c[n]) {
      assert FieldsRedacted(a[n], b[n]) && FieldsRedacted(b[n], c[n]);
    }
  }

  lemma NodeDone(n: Node, j: Json, h: Contents)
    requires KeysDone(n, {}, j, h)
    ensures Holds(Ref(n), Scrub(j), h)
  {
    forall k | k in Scrub(j).fields ensures Holds(h[n][k], Scrub(j).fields[k], h) {
      assert KeyDone(h[n], k, j, h);
    }
  }

  /** One turn of the loop: the marker under a sensitive key, or a walk into the child. */
  method WalkKey(n: Node, key: string, ghost j: Json, ghost heap: set<Node>)
    requires PartlyHolds(Ref(n), j, Snapshot(heap)) && key in j.fields
    modifies heap
    ensures OnlyRedacts(old(Snapshot(heap)), Snapshot(heap)) && KeyDone(n.fields, key, j, Snapshot(heap))
    decreases j, 0
  {
    if Sensitive(key) {
      n.fields := n.fields[key := MARKER];
    } else {
      Walk(n.fields[key], j.fields[key], heap);
      assert FieldsRedacted(old(Snapshot(heap))[n], Snapshot(heap)[n]);
    }
  }

  /** The keys in whatever order the map yields them. */
  method WalkNode(n: Node, ghost j: Json, ghost heap: set<Node>)
    requires PartlyHolds(Ref(n), j, Snapshot(heap))
    modifies heap
    ensures Holds(Ref(n), Scrub(j), Snapshot(heap)) && OnlyRedacts(old(Snapshot(heap)), Snapshot(heap))
    decreases j, 1
  {
    var todo := n.fields.Keys;
    ghost var start := Snapshot(heap);
    while todo != {}
      invariant OnlyRedacts(start, Snapshot(heap))
      invariant PartlyHolds(Ref(n), j, Snapshot(heap))
      invariant todo <= j.fields.Keys && KeysDone(n, todo, j, Snapshot(heap))
      decreases |todo|
    {
      var key :| key in todo;
      ghost var h := Snapshot(heap);
      WalkKey(n, key, j, heap);
      RedactsTransitive(start, h, Snapshot(heap));
      PartlyStays(Ref(n), j, h, Snapshot(heap));
      KeyStep(n, todo, key, j, h, Snapshot(heap));
      todo := todo - {key};
    }
    NodeDone(n, j, Snapshot(heap));
  }

  /** `scrubSnapshot` on any decoded document. */
  method ScrubSnapshot(v: Value, ghost j: Json, ghost heap: set<Node>)
    requires Holds(v, j, Snapshot(heap))
    modifies heap
    ensures Holds(v, Scrub(j), Snapshot(heap)) && OnlyRedacts(old(Snapshot(heap)), Snapshot(heap))
  {
    HoldsPartly(v, j, Snapshot(heap));
    Walk(v, j, heap);
  }
}
