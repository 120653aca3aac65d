/**
 Redaction of audit snapshots (`scrubSnapshot` in `route_service.go`): in a decoded JSON document the value
 of every sensitive key, at any depth, is replaced by a marker.
 */
module Redaction {
  import opened Wrappers

  datatype Json =
    | Null
    | Bool(bool)
    | Number(real)
    | Text(string)
    | Array(items: seq<Json>)
    | Object(fields: map<string, Json>)

  const REDACTED: Json := Text("[REDACTED]")

  // ---- Sensitive keys ----

  const TOKENS: seq<string> :=
    ["password", "passwd", "token", "authorization", "secret", "credential", "private_key", "apikey", "api_key"]

  /**
   Lower case as far as the tokens can tell: besides A to Z, only the Kelvin sign and the dotted capital I
   have an ASCII lower-case form.
   */
  function Lower(c: char): char {
    if 'A' <= c <= 'Z' then c - 'A' + 'a'
    else if c == '\U{212A}' then 'k'
    else if c == '\U{0130}' then 'i'
    else c
  }

  function NormalChar(c: char): char {
    if c == '-' || c == ' ' then '_' else Lower(c)
  }

  function Normal(key: string): (r: string)
    ensures |r| == |key|
  {
    seq(|key|, i requires 0 <= i < |key| => NormalChar(key[i]))
  }

  predicate OccursAt(key: string, token: string, i: nat) {
    i + |token| <= |key| && key[i..i + |token|] == token
  }

  predicate Contains(key: string, token: string) {
    exists i :: 0 <= i <= |key| && OccursAt(key, token, i)
  }

  predicate Sensitive(key: string) {
    exists t :: 0 <= t < |TOKENS| && Contains(Normal(key), TOKENS[t])
  }

  lemma NormalConcat(a: string, b: string)
    ensures Normal(a + b) == Normal(a) + Normal(b)
  {
  }

  lemma ContainsInside(before: string, key: string, after: string, token: string)
    requires Contains(key, token)
    ensures Contains(before + key + after, token)
  {
    var i :| 0 <= i <= |key| && OccursAt(key, token, i);
    var whole := before + key + after;
    assert whole[|before|..|before| + |key|] == key;
    assert whole[|before| + i..|before| + i + |token|] == key[i..i + |token|];
    assert OccursAt(whole, token, |before| + i);
  }

  /** A sensitive word makes every key that contains it sensitive. */
  lemma SensitiveInside(before: string, key: string, after: string)
    requires Sensitive(key)
    ensures Sensitive(before + key + after)
  {
    var t :| 0 <= t < |TOKENS| && Contains(Normal(key), TOKENS[t]);
    NormalConcat(before + key, after);
    NormalConcat(before, key);
    ContainsInside(Normal(before), Normal(key), Normal(after), TOKENS[t]);
  }

  /** Spelling does not matter: case, and whether words are joined by dash, space or underscore. */
  lemma SensitiveSpelling(a: string, b: string)
    requires |a| == |b| && forall i :: 0 <= i < |a| ==> NormalChar(a[i]) == NormalChar(b[i])
    ensures Sensitive(a) == Sensitive(b)
  {
    assert Normal(a) == Normal(b);
  }

  /**
   Character `c` is spelled for the lower-case letter or underscore `t` of a word: either case of the letter, a
   dash, a blank or an underscore; and the two signs whose lower case is an ASCII letter.
   */
  predicate Spells(c: char, t: char) {
    || c == t
    || ('a' <= t <= 'z' && 'A' <= c <= 'Z' && c as int + 32 == t as int)
    || (t == '_' && (c == '-' || c == ' '))
    || (t == 'k' && c == '\U{212A}')
    || (t == 'i' && c == '\U{0130}')
  }

  /** From position `i` on the key spells the word. */
  predicate SpelledAt(key: string, word: string, i: nat) {
    i + |word| <= |key| && forall j :: 0 <= j < |word| ==> Spells(key[i + j], word[j])
  }

  predicate InWords(word: string) {
    forall j :: 0 <= j < |word| ==> 'a' <= word[j] <= 'z' || word[j] == '_'
  }

  lemma NormalSpells(c: char, t: char)
    requires 'a' <= t <= 'z' || t == '_'
    ensures NormalChar(c) == t <==> Spells(c, t)
  {
  }

  lemma {:induction false} OccursSpelled(key: string, word: string, i: nat)
    requires InWords(word)
    ensures OccursAt(Normal(key), word, i) <==> SpelledAt(key, word, i)
  {
    if i + |word| <= |key| {
      forall j | 0 <= j < |word|
        ensures Normal(key)[i..i + |word|][j] == word[j] <==> Spells(key[i + j], word[j])
      {
        NormalSpells(key[i + j], word[j]);
      }
    }
  }

  lemma {:induction false} TokensInWords(t: nat)
    requires t < |TOKENS|
    ensures InWords(TOKENS[t])
  {
  }

  /** A key is sensitive exactly if some part of it spells one of nine words, in any case and with any joint. */
  lemma {:induction false} SensitiveExactly(key: string)
    ensures Sensitive(key)
       <==> exists word, i: nat ::
              && word in ["password", "passwd", "token", "authorization", "secret", "credential", "private_key",
                          "apikey", "api_key"]
              && SpelledAt(key, word, i)
  {
    if Sensitive(key) {
      var t :| 0 <= t < |TOKENS| && Contains(Normal(key), TOKENS[t]);
      var i :| 0 <= i <= |key| && OccursAt(Normal(key), TOKENS[t], i);
      TokensInWords(t);
      OccursSpelled(key, TOKENS[t], i);
    }
    if word, i: nat :| word in TOKENS && SpelledAt(key, word, i) {
      var t :| 0 <= t < |TOKENS| && TOKENS[t] == word;
      TokensInWords(t);
      OccursSpelled(key, word, i);
      assert Contains(Normal(key), TOKENS[t]);
    }
  }

  // ---- The document after the walk ----

  function Scrub(node: Json): Json {
    match node
    case Object(fields) => Object(map k | k in fields :: if Sensitive(k) then REDACTED else Scrub(fields[k]))
    case Array(items) => Array(seq(|items|, i requires 0 <= i < |items| => Scrub(items[i])))
    case _ => node
  }

  // ---- Looking into a document ----

  datatype Step = Key(key: string) | Index(index: nat)

  function Child(node: Json, step: Step): Option<Json> {
    match step
    case Key(k) => if node.Object? && k in node.fields then Some(node.fields[k]) else None
    case Index(i) => if node.Array? && i < |node.items| then Some(node.items[i]) else None
  }

  function At(node: Json, path: seq<Step>): Option<Json>
    decreases |path|
  {
    if path == [] then Some(node)
    else
      var child := Child(node, path[0]);
      if child.None? then None else At(child.value, path[1..])
  }

  predicate Hides(step: Step) {
    step.Key? && Sensitive(step.key)
  }

  /** No key on the path is sensitive. */
  predicate Visible(path: seq<Step>) {
    forall i :: 0 <= i < |path| ==> !Hides(path[i])
  }

  /** What a document shows at one place: its keys, its length or its scalar, but nothing below. */
  datatype Shape = Missing | Keys(keys: set<string>) | Length(length: nat) | Leaf(scalar: Json)

  function ShapeOf(node: Option<Json>): Shape {
    match node
    case None => Missing
    case Some(Object(fields)) => Keys(fields.Keys)
    case Some(Array(items)) => Length(|items|)
    case Some(scalar) => Leaf(scalar)
  }

  /** Along visible keys, the walk keeps everything in place. */
  lemma {:induction false} VisibleKept(node: Json, path: seq<Step>)
    requires Visible(path)
    ensures At(Scrub(node), path) == match At(node, path) case None => None case Some(n) => Some(Scrub(n))
    ensures ShapeOf(At(Scrub(node), path)) == ShapeOf(At(node, path))
    decreases |path|
  {
    if path == [] {
    } else {
      var child := Child(node, path[0]);
      assert !Hides(path[0]);
      if child.Some? {
        assert Child(Scrub(node), path[0]) == Some(Scrub(child.value));
        VisibleKept(child.value, path[1..]);
      } else {
        assert Child(Scrub(node), path[0]).None?;
      }
    }
  }

  lemma {:induction false} AtConcat(node: Json, path: seq<Step>, rest: seq<Step>)
    ensures At(node, path + rest) == match At(node, path) case None => None case Some(n) => At(n, rest)
    decreases |path|
  {
    if path == [] {
      assert path + rest == rest;
    } else {
      assert (path + rest)[0] == path[0] && (path + rest)[1..] == path[1..] + rest;
      var child := Child(node, path[0]);
      if child.Some? { AtConcat(child.value, path[1..], rest); }
    }
  }

  lemma {:induction false} FirstHidden(path: seq<Step>) returns (i: nat)
    requires !Visible(path)
    ensures i < |path| && Hides(path[i]) && Visible(path[..i])
  {
    i := 0;
    assert path[..|path|] == path;
    while !Hides(path[i])
      invariant i < |path| && Visible(path[..i]) && !Visible(path)
      decreases |path| - i
    {
      assert path[..i + 1] == path[..i] + [path[i]];
      i := i + 1;
    }
  }

  /**
   Every sensitive key, at any depth, holds the marker: a path that meets a sensitive key leads to the
   marker if it ends there and the key is present, and nowhere otherwise.
   */
  lemma {:induction false} HiddenRedacted(node: Json, path: seq<Step>)
    requires !Visible(path)
    ensures exists i :: 0 <= i < |path| && Visible(path[..i]) && Hides(path[i])
              && At(Scrub(node), path)
                 == if i == |path| - 1 && At(node, path).Some? then Some(Text("[REDACTED]")) else None
  {
    var i := FirstHidden(path);
    var before, after := path[..i], path[i + 1..];
    assert path == before + ([path[i]] + after);
    AtConcat(node, before, [path[i]] + after);
    AtConcat(Scrub(node), before, [path[i]] + after);
    VisibleKept(node, before);
    var n := At(node, before);
    assert ([path[i]] + after)[1..] == after;
    if n.Some? {
      HiddenChild(n.value, path[i]);
      if Child(n.value, path[i]).Some? && after != [] { NothingBelowMarker(after); }
    }
  }

  lemma HiddenChild(node: Json, step: Step)
    requires Hides(step)
    ensures Child(Scrub(node), step) == if Child(node, step).Some? then Some(REDACTED) else None
  {
  }

  lemma NothingBelowMarker(path: seq<Step>)
    requires path != []
    ensures At(REDACTED, path).None?
  {
  }

  // ---- Idempotence and exactness ----

  /** Every sensitive key already holds the marker. */
  predicate Clean(node: Json) {
    match node
    case Object(fields) => forall k :: k in fields ==> if Sensitive(k) then fields[k] == REDACTED else Clean(fields[k])
    case Array(items) => forall i :: 0 <= i < |items| ==> Clean(items[i])
    case _ => true
  }

  lemma {:induction false} ScrubCleans(node: Json)
    ensures Clean(Scrub(node))
  {
    match node
    case Object(fields) =>
      forall k | k in fields && !Sensitive(k) ensures Clean(Scrub(fields[k])) { ScrubCleans(fields[k]); }
    case Array(items) =>
      forall i | 0 <= i < |items| ensures Clean(Scrub(items[i])) { ScrubCleans(items[i]); }
    case _ =>
  }

  /** The walk changes a document exactly when some sensitive key does not hold the marker. */
  lemma {:induction false} FixedWhenClean(node: Json)
    ensures Scrub(node) == node <==> Clean(node)
  {
    match node
    case Object(fields) =>
      forall k | k in fields ensures Scrub(fields[k]) == fields[k] <==> Clean(fields[k]) { FixedWhenClean(fields[k]); }
      if Scrub(node) == node { ScrubCleans(node); }
      if Clean(node) { assert Scrub(node).fields == fields; }
    case Array(items) =>
      forall i | 0 <= i < |items| ensures Scrub(items[i]) == items[i] <==> Clean(items[i]) { FixedWhenClean(items[i]); }
      if Scrub(node) == node { ScrubCleans(node); }
      if Clean(node) { assert Scrub(node).items == items; }
    case _ =>
  }

  lemma {:induction false} ScrubIdempotent(node: Json)
    ensures Scrub(Scrub(node)) == Scrub(node)
  {
    ScrubCleans(node);
    FixedWhenClean(Scrub(node));
  }

  // ---- What a snapshot reveals ----

  /** Two documents show the same along every visible path. */
  ghost predicate SameVisible(a: Json, b: Json) {
    forall path: seq<Step> :: Visible(path) ==> ShapeOf(At(a, path)) == ShapeOf(At(b, path))
  }

  lemma SameVisibleChild(a: Json, b: Json, step: Step)
    requires SameVisible(a, b) && !Hides(step)
    requires Child(a, step).Some? && Child(b, step).Some?
    ensures SameVisible(Child(a, step).value, Child(b, step).value)
  {
    var c, d := Child(a, step).value, Child(b, step).value;
    forall path: seq<Step> | Visible(path)
      ensures ShapeOf(At(c, path)) == ShapeOf(At(d, path))
    {
      var longer := [step] + path;
      assert Visible(longer) && longer[1..] == path;
      assert ShapeOf(At(a, longer)) == ShapeOf(At(b, longer));
    }
  }

  lemma {:induction false} SameVisibleScrubsAlike(a: Json, b: Json)
    requires SameVisible(a, b)
    ensures Scrub(a) == Scrub(b)
    decreases a
  {
    assert Visible([]) && ShapeOf(At(a, [])) == ShapeOf(At(b, []));
    match a
    case Object(fields) =>
      assert b.Object? && b.fields.Keys == fields.Keys;
      forall k | k in fields && !Sensitive(k)
        ensures Scrub(fields[k]) == Scrub(b.fields[k])
      {
        SameVisibleChild(a, b, Key(k));
        SameVisibleScrubsAlike(fields[k], b.fields[k]);
      }
      assert Scrub(a).fields == Scrub(b).fields;
    case Array(items) =>
      assert b.Array? && |b.items| == |items|;
      forall i | 0 <= i < |items|
        ensures Scrub(items[i]) == Scrub(b.items[i])
      {
        SameVisibleChild(a, b, Index(i));
        SameVisibleScrubsAlike(items[i], b.items[i]);
      }
      assert Scrub(a).items == Scrub(b).items;
    case _ =>
  }

  /**
   A snapshot reveals exactly what lies outside sensitive keys: two documents scrub to the same snapshot
   if and only if they agree along every visible path.
   */
  lemma SnapshotReveals(a: Json, b: Json)
    ensures Scrub(a) == Scrub(b) <==> SameVisible(a, b)
  {
    if SameVisible(a, b) { SameVisibleScrubsAlike(a, b); }
    if Scrub(a) == Scrub(b) {
      forall path: seq<Step> | Visible(path)
        ensures ShapeOf(At(a, path)) == ShapeOf(At(b, path))
      {
        VisibleKept(a, path);
        VisibleKept(b, path);
      }
    }
  }
}
