/** Redaction of observability payloads: a depth-bounded walk over an object graph that may be cyclic. */
module SentryPii {
  import opened Options

  // ----- Sensitive keys -----

  function LowerChar(c: char): char {
    if 'A' <= c <= 'Z' then (c as int + 32) as char else c
  }

  function Lower(s: string): string {
    seq(|s|, i requires 0 <= i < |s| => LowerChar(s[i]))
  }

  predicate Contains(s: string, part: string) {
    exists i :: 0 <= i <= |s| && part <= s[i..]
  }

  /** SENSITIVE_KEY, with `api[_-]?key` spelt out. */
  const SENSITIVE_PARTS := ["password", "secret", "token", "authorization", "cookie", "apikey", "api_key", "api-key",
                           "customerphone", "customer_phone", "phone", "email", "ssn", "credit"]

  predicate IsSensitive(key: string) {
    exists i :: 0 <= i < |SENSITIVE_PARTS| && Contains(Lower(key), SENSITIVE_PARTS[i])
  }

  // ----- Object graphs and the trees made of them -----

  datatype Primitive = Null | UndefinedValue | Text(text: string) | Other(code: int)

  datatype Value = Leaf(value: Primitive) | Ref(id: nat)

  datatype Node = Array(items: seq<Value>) | Record(entries: map<string, Value>)

  /** Every reference leads to a node, and nodes may refer to each other in circles. */
  type Heap = nat -> Node

  datatype Tree = Prim(value: Primitive) | Arr(items: seq<Tree>) | Obj(fields: map<string, Tree>)

  const MAX_DEPTH := 8
  const TRUNCATED := Prim(Text("[Truncated]"))
  const REDACTED := Prim(Text("[Redacted]"))

  /** Assigning to this key of a fresh object sets its prototype and creates no key. */
  const PROTOTYPE_KEY := "__proto__"

  /** scrubValue. */
  function Scrub(heap: Heap, v: Value, depth: nat): Tree
    decreases MAX_DEPTH + 1 - depth
  {
    if depth > MAX_DEPTH then TRUNCATED
    else
      match v
      case Leaf(p) => Prim(p)
      case Ref(id) =>
        match heap(id)
        case Array(items) => Arr(seq(|items|, i requires 0 <= i < |items| => Scrub(heap, items[i], depth + 1)))
        case Record(entries) =>
          Obj(map k | k in entries && k != PROTOTYPE_KEY ::
                if IsSensitive(k) then REDACTED else Scrub(heap, entries[k], depth + 1))
  }

  /** The walk as written: arrays are mapped, and the copy of an object is filled key by key. */
  method ScrubValue(heap: Heap, v: Value, depth: nat) returns (out: Tree)
    ensures out == Scrub(heap, v, depth)
    decreases MAX_DEPTH + 1 - depth, 2
  {
    if depth > MAX_DEPTH {
      return TRUNCATED;
    }
    if v.Leaf? {
      return Prim(v.value);
    }
    match heap(v.id)
    case Array(items) =>
      var copies: seq<Tree> := [];
      for i := 0 to |items|
        invariant |copies| == i
        invariant forall k :: 0 <= k < i ==> copies[k] == Scrub(heap, items[k], depth + 1)
      {
        var copy := ScrubValue(heap, items[i], depth + 1);
        copies := copies + [copy];
      }
      out := Arr(copies);
    case Record(entries) =>
      var fields := ScrubEntries(heap, entries, depth);
      out := Obj(fields);
  }

  method ScrubEntries(heap: Heap, entries: map<string, Value>, depth: nat) returns (fields: map<string, Tree>)
    requires depth <= MAX_DEPTH
    ensures fields == map k | k in entries && k != PROTOTYPE_KEY ::
              if IsSensitive(k) then REDACTED else Scrub(heap, entries[k], depth + 1)
    decreases MAX_DEPTH + 1 - depth, 1
  {
    hide IsSensitive, Scrub;
    fields := map[];
    var left := entries.Keys;
    while left != {}
      invariant left <= entries.Keys
      invariant forall k :: k in fields <==> k in entries && k !in left && k != PROTOTYPE_KEY
      invariant forall k :: k in fields ==> fields[k] == if IsSensitive(k) then REDACTED else Scrub(heap, entries[k], depth + 1)
      decreases |left|
    {
      var key :| key in left;
      left := left - {key};
      var copy := ScrubEntry(heap, key, entries[key], depth);
      if key != PROTOTYPE_KEY {
        fields := fields[key := copy];
      }
    }
  }

  method ScrubEntry(heap: Heap, key: string, child: Value, depth: nat) returns (copy: Tree)
    requires depth <= MAX_DEPTH
    ensures copy == if IsSensitive(key) then REDACTED else Scrub(heap, child, depth + 1)
    decreases MAX_DEPTH + 1 - depth, 0
  {
    hide Scrub;
    if IsSensitive(key) {
      copy := REDACTED;
    } else {
      copy := ScrubValue(heap, child, depth + 1);
    }
  }

  // ----- Marks and keys, spelt out -----

  /** Letters lose their case, and nothing else changes. */
  lemma LowerLetters(c: char)
    ensures var upper, lower := "ABCDEFGHIJKLMNOPQRSTUVWXYZ", "abcdefghijklmnopqrstuvwxyz";
      && (c !in upper ==> LowerChar(c) == c)
      && forall i :: 0 <= i < 26 && upper[i] == c ==> LowerChar(c) == lower[i]
  {
    var upper, lower := "ABCDEFGHIJKLMNOPQRSTUVWXYZ", "abcdefghijklmnopqrstuvwxyz";
    assert forall i :: 0 <= i < 26 ==> upper[i] as int == 65 + i && lower[i] as int == 97 + i;
    if 'A' <= c <= 'Z' {
      assert upper[c as int - 65] == c;
    }
  }

  /** A key is sensitive exactly if it is made of anything, one of these words in any case, and anything. */
  lemma SensitiveKeys(key: string)
    ensures IsSensitive(key) <==>
      exists a: string, w: string, b: string :: key == a + w + b &&
        Lower(w) in {"password", "secret", "token", "authorization", "cookie", "apikey", "api_key", "api-key",
                     "customerphone", "customer_phone", "phone", "email", "ssn", "credit"}
  {
    hide Contains, Lower;
    var words := {"password", "secret", "token", "authorization", "cookie", "apikey", "api_key", "api-key",
                  "customerphone", "customer_phone", "phone", "email", "ssn", "credit"};
    SameWords(words);
    if IsSensitive(key) {
      var k :| 0 <= k < |SENSITIVE_PARTS| && Contains(Lower(key), SENSITIVE_PARTS[k]);
      var a, w, b := SplitAround(key, SENSITIVE_PARTS[k]);
    }
    if a: string, w: string, b: string :| key == a + w + b && Lower(w) in words {
      var k :| 0 <= k < |SENSITIVE_PARTS| && SENSITIVE_PARTS[k] == Lower(w);
      PartIsContained(a, w, b);
    }
  }

  lemma SplitAround(key: string, part: string) returns (a: string, w: string, b: string)
    requires Contains(Lower(key), part)
    ensures key == a + w + b && Lower(w) == part
  {
    var i :| 0 <= i <= |Lower(key)| && part <= Lower(key)[i..];
    a, w, b := key[..i], key[i..i + |part|], key[i + |part|..];
    assert Lower(w) == Lower(key)[i..][..|part|];
  }

  lemma PartIsContained(a: string, w: string, b: string)
    ensures Contains(Lower(a + w + b), Lower(w))
  {
    assert Lower(a + w + b)[|a|..][..|w|] == Lower(w);
  }

  lemma SameWords(words: set<string>)
    requires words == {"password", "secret", "token", "authorization", "cookie", "apikey", "api_key", "api-key",
                       "customerphone", "customer_phone", "phone", "email", "ssn", "credit"}
    ensures forall w :: w in words <==> exists k :: 0 <= k < |SENSITIVE_PARTS| && SENSITIVE_PARTS[k] == w
  {
    var p := SENSITIVE_PARTS;
    assert p[0] == "password" && p[1] == "secret" && p[2] == "token" && p[3] == "authorization" && p[4] == "cookie";
    assert p[5] == "apikey" && p[6] == "api_key" && p[7] == "api-key" && p[8] == "customerphone";
    assert p[9] == "customer_phone" && p[10] == "phone" && p[11] == "email" && p[12] == "ssn" && p[13] == "credit";
  }

  /** The marks, and where they stand: nine levels down every value, and the value of every sensitive key. */
  lemma MarksAreLiteral(heap: Heap, v: Value, depth: nat, id: nat, key: string)
    ensures Scrub(heap, v, depth) == Prim(Text("[Truncated]")) <== depth >= 9
    ensures heap(id).Record? && key in heap(id).entries && key != "__proto__" && IsSensitive(key) && depth <= 8 ==>
      var copy := Scrub(heap, Ref(id), depth);
      copy.Obj? && key in copy.fields && copy.fields[key] == Prim(Text("[Redacted]"))
    ensures depth <= 8 && v.Leaf? ==> Scrub(heap, v, depth) == Prim(v.value)
  {
    hide IsSensitive;
  }

  // ----- Looking inside -----

  datatype Selector = Index(index: nat) | Key(key: string)

  function Child(t: Tree, s: Selector): Option<Tree> {
    match s
    case Index(i) => if t.Arr? && i < |t.items| then Some(t.items[i]) else None
    case Key(k) => if t.Obj? && k in t.fields then Some(t.fields[k]) else None
  }

  function At(t: Tree, path: seq<Selector>): Option<Tree>
    decreases |path|
  {
    if path == [] then Some(t)
    else match Child(t, path[0])
      case None => None
      case Some(c) => At(c, path[1..])
  }

  function ValueChild(heap: Heap, v: Value, s: Selector): Option<Value> {
    if v.Leaf? then None
    else
      match (heap(v.id), s)
      case (Array(items), Index(i)) => if i < |items| then Some(items[i]) else None
      case (Record(entries), Key(k)) => if k in entries then Some(entries[k]) else None
      case _ => None
  }

  function ValueAt(heap: Heap, v: Value, path: seq<Selector>): Option<Value>
    decreases |path|
  {
    if path == [] then Some(v)
    else match ValueChild(heap, v, path[0])
      case None => None
      case Some(c) => ValueAt(heap, c, path[1..])
  }

  predicate IsPlainPath(path: seq<Selector>) {
    forall i :: 0 <= i < |path| && path[i].Key? ==> path[i].key != PROTOTYPE_KEY && !IsSensitive(path[i].key)
  }

  /** What the copy shows of one visited value. */
  predicate Shows(heap: Heap, v: Value, copy: Tree) {
    match v
    case Leaf(p) => copy == Prim(p)
    case Ref(id) =>
      match heap(id)
      case Array(items) => copy.Arr? && |copy.items| == |items|
      case Record(entries) => copy.Obj? && copy.fields.Keys == entries.Keys - {PROTOTYPE_KEY}
  }

  lemma ChildOfScrub(heap: Heap, v: Value, depth: nat, s: Selector)
    requires depth <= MAX_DEPTH
    ensures var c := Child(Scrub(heap, v, depth), s);
      && (c.Some? ==> ValueChild(heap, v, s).Some? && (s.Key? ==> s.key != PROTOTYPE_KEY)
                      && c.value == if s.Key? && IsSensitive(s.key) then REDACTED else Scrub(heap, ValueChild(heap, v, s).value, depth + 1))
      && (c.None? && ValueChild(heap, v, s).Some? ==> s == Key(PROTOTYPE_KEY))
  {
    hide IsSensitive;
  }

  /**
   * Along every path without sensitive keys the copy shows the value itself, an array of the same length,
   * or an object with the same keys, save the prototype key; nine levels down it shows the truncation mark.
   */
  lemma {:induction false} KeepsVisited(heap: Heap, v: Value, depth: nat, path: seq<Selector>)
    requires IsPlainPath(path) && depth + |path| <= MAX_DEPTH + 1 && ValueAt(heap, v, path).Some?
    ensures var copy := At(Scrub(heap, v, depth), path);
      copy.Some? && if depth + |path| > MAX_DEPTH then copy.value == TRUNCATED else Shows(heap, ValueAt(heap, v, path).value, copy.value)
    decreases |path|
  {
    hide IsSensitive;
    if path != [] {
      ChildOfScrub(heap, v, depth, path[0]);
      KeepsVisited(heap, ValueChild(heap, v, path[0]).value, depth + 1, path[1..]);
    }
  }

  lemma Bottom(heap: Heap, v: Value, depth: nat)
    requires depth > MAX_DEPTH
    ensures Scrub(heap, v, depth) == TRUNCATED
  {
  }

  lemma LeafEnds(p: Primitive, path: seq<Selector>)
    ensures At(Prim(p), path).Some? ==> path == []
  {
  }

  /** However the graph is tied in circles, no path into the copy is longer than nine steps. */
  lemma {:induction false} DepthIsBounded(heap: Heap, v: Value, depth: nat, path: seq<Selector>)
    requires depth <= MAX_DEPTH + 1 && At(Scrub(heap, v, depth), path).Some?
    ensures depth + |path| <= MAX_DEPTH + 1
    decreases |path|
  {
    hide IsSensitive, Scrub;
    if depth == MAX_DEPTH + 1 {
      Bottom(heap, v, depth);
      LeafEnds(Text("[Truncated]"), path);
    } else if path != [] {
      ChildOfScrub(heap, v, depth, path[0]);
      if path[0].Key? && IsSensitive(path[0].key) {
        LeafEnds(Text("[Redacted]"), path[1..]);
      } else {
        DepthIsBounded(heap, ValueChild(heap, v, path[0]).value, depth + 1, path[1..]);
      }
    }
  }

  /** At no depth does a sensitive key carry anything but the mark, and the prototype key never appears. */
  lemma {:induction false} SensitiveIsRedacted(heap: Heap, v: Value, depth: nat, path: seq<Selector>, key: string)
    requires var t := At(Scrub(heap, v, depth), path); t.Some? && t.value.Obj? && key in t.value.fields
    ensures IsSensitive(key) ==> At(Scrub(heap, v, depth), path).value.fields[key] == REDACTED
    ensures key != PROTOTYPE_KEY
    decreases |path|
  {
    hide IsSensitive;
    if path == [] {
      assert depth <= MAX_DEPTH;
    } else if depth <= MAX_DEPTH {
      ChildOfScrub(heap, v, depth, path[0]);
      if !(path[0].Key? && IsSensitive(path[0].key)) {
        SensitiveIsRedacted(heap, ValueChild(heap, v, path[0]).value, depth + 1, path[1..], key);
      }
    }
  }

  // ----- Scrubbing what was scrubbed -----

  /** The graph at `v` unfolds to the tree `t`, as far as `levels` steps down. */
  predicate UnfoldsTo(heap: Heap, v: Value, t: Tree, levels: nat)
    decreases levels
  {
    levels == 0 ||
    match v
    case Leaf(p) => t == Prim(p)
    case Ref(id) =>
      match heap(id)
      case Array(items) =>
        t.Arr? && |t.items| == |items| && forall i :: 0 <= i < |items| ==> UnfoldsTo(heap, items[i], t.items[i], levels - 1)
      case Record(entries) =>
        t.Obj? && t.fields.Keys == entries.Keys && forall k :: k in entries ==> UnfoldsTo(heap, entries[k], t.fields[k], levels - 1)
  }

  /** Scrubbing is idempotent: a payload that unfolds to a scrubbed tree scrubs to the same tree. */
  lemma {:induction false} ScrubTwice(heap: Heap, v: Value, again: Heap, w: Value, depth: nat)
    requires depth <= MAX_DEPTH + 1
    requires UnfoldsTo(again, w, Scrub(heap, v, depth), MAX_DEPTH + 1 - depth)
    ensures Scrub(again, w, depth) == Scrub(heap, v, depth)
    decreases MAX_DEPTH + 1 - depth
  {
    hide IsSensitive;
    if depth <= MAX_DEPTH && w.Ref? {
      var t := Scrub(heap, v, depth);
      match again(w.id)
      case Array(items) =>
        var originals := heap(v.id).items;
        forall i | 0 <= i < |items| ensures Scrub(again, items[i], depth + 1) == t.items[i] {
          ScrubTwice(heap, originals[i], again, items[i], depth + 1);
        }
      case Record(entries) =>
        var originals := heap(v.id).entries;
        forall k | k in entries && !IsSensitive(k) ensures Scrub(again, entries[k], depth + 1) == t.fields[k] {
          ScrubTwice(heap, originals[k], again, entries[k], depth + 1);
        }
    }
  }

  // ----- Every tree is a graph -----

  ghost predicate Unfolds(heap: Heap, v: Value, t: Tree) {
    forall levels: nat :: UnfoldsTo(heap, v, t, levels)
  }

  ghost predicate HasGraph(t: Tree) {
    exists heap: Heap, v: Value :: Unfolds(heap, v, t)
  }

  /** Where node `id` of the `i`-th of `n` graphs stands when they are dealt out over one heap in turn. */
  function Place(id: nat, n: nat, i: nat): nat {
    if id == 0 then i else n + Place(id - 1, n, i)
  }

  function GraphAt(place: nat, n: nat): (i: nat)
    requires n > 0
    ensures i < n
  {
    if place < n then place else GraphAt(place - n, n)
  }

  function NodeAt(place: nat, n: nat): nat
    requires n > 0
  {
    if place < n then 0 else NodeAt(place - n, n) + 1
  }

  function MovedValue(v: Value, n: nat, i: nat): Value {
    if v.Ref? then Ref(Place(v.id, n, i) + 1) else v
  }

  function MovedNode(node: Node, n: nat, i: nat): Node {
    match node
    case Array(items) => Array(seq(|items|, k requires 0 <= k < |items| => MovedValue(items[k], n, i)))
    case Record(entries) => Record(map k | k in entries :: MovedValue(entries[k], n, i))
  }

  /** The graphs dealt out over one heap, with a node of their own at 0. */
  function Joined(graphs: seq<(Heap, Value)>, root: Node): Heap {
    (id: nat) =>
          if id == 0 || graphs == [] then root
          else
            var i := GraphAt(id - 1, |graphs|);
            MovedNode(graphs[i].0(NodeAt(id - 1, |graphs|)), |graphs|, i)
  }

  lemma {:induction false} PlaceReads(id: nat, n: nat, i: nat)
    requires i < n
    ensures GraphAt(Place(id, n, i), n) == i && NodeAt(Place(id, n, i), n) == id
  {
    if id > 0 {
      PlaceReads(id - 1, n, i);
    }
  }

  lemma {:induction false} JoinedKeeps(graphs: seq<(Heap, Value)>, root: Node, i: nat, v: Value, t: Tree, levels: nat)
    requires i < |graphs| && UnfoldsTo(graphs[i].0, v, t, levels)
    ensures UnfoldsTo(Joined(graphs, root), MovedValue(v, |graphs|, i), t, levels)
    decreases levels
  {
    hide Place;
    if levels > 0 && v.Ref? {
      var n := |graphs|;
      PlaceReads(v.id, n, i);
      var node := graphs[i].0(v.id);
      assert Joined(graphs, root)(Place(v.id, n, i) + 1) == MovedNode(node, n, i);
      match node
      case Array(items) =>
        forall k | 0 <= k < |items| ensures UnfoldsTo(Joined(graphs, root), MovedValue(items[k], n, i), t.items[k], levels - 1) {
          JoinedKeeps(graphs, root, i, items[k], t.items[k], levels - 1);
        }
      case Record(entries) =>
        forall k | k in entries ensures UnfoldsTo(Joined(graphs, root), MovedValue(entries[k], n, i), t.fields[k], levels - 1) {
          JoinedKeeps(graphs, root, i, entries[k], t.fields[k], levels - 1);
        }
    }
  }

  lemma JoinedUnfolds(graphs: seq<(Heap, Value)>, root: Node, i: nat, t: Tree)
    requires i < |graphs| && Unfolds(graphs[i].0, graphs[i].1, t)
    ensures Unfolds(Joined(graphs, root), MovedValue(graphs[i].1, |graphs|, i), t)
  {
    forall levels: nat ensures UnfoldsTo(Joined(graphs, root), MovedValue(graphs[i].1, |graphs|, i), t, levels) {
      JoinedKeeps(graphs, root, i, graphs[i].1, t, levels);
    }
  }

  /** One graph for each tree of a list. */
  lemma {:induction false} GraphsOf(trees: seq<Tree>) returns (graphs: seq<(Heap, Value)>)
    requires forall i :: 0 <= i < |trees| ==> HasGraph(trees[i])
    ensures |graphs| == |trees| && forall i :: 0 <= i < |trees| ==> Unfolds(graphs[i].0, graphs[i].1, trees[i])
  {
    if trees == [] {
      graphs := [];
    } else {
      var last := |trees| - 1;
      var front := GraphsOf(trees[..last]);
      assert HasGraph(trees[last]);
      var heap: Heap, v: Value :| Unfolds(heap, v, trees[last]);
      graphs := front + [(heap, v)];
    }
  }

  lemma {:induction false} KeysInOrder(keys: set<string>) returns (order: seq<string>)
    ensures |order| == |keys| && forall k :: k in order <==> k in keys
    ensures forall i, j :: 0 <= i < j < |order| ==> order[i] != order[j]
  {
    if keys == {} {
      order := [];
    } else {
      var key :| key in keys;
      var rest := KeysInOrder(keys - {key});
      order := rest + [key];
    }
  }

  function IndexIn(key: string, order: seq<string>): (i: nat)
    requires key in order
    ensures i < |order| && order[i] == key
  {
    if order[0] == key then 0 else IndexIn(key, order[1..]) + 1
  }

  lemma ArrayHasGraph(items: seq<Tree>)
    requires forall i :: 0 <= i < |items| ==> HasGraph(items[i])
    ensures HasGraph(Arr(items))
  {
    var graphs := GraphsOf(items);
    var n := |items|;
    var root := Array(seq(n, i requires 0 <= i < n => MovedValue(graphs[i].1, n, i)));
    var heap := Joined(graphs, root);
    forall levels: nat ensures UnfoldsTo(heap, Ref(0), Arr(items), levels) {
      forall i | 0 <= i < n ensures Unfolds(heap, root.items[i], items[i]) {
        JoinedUnfolds(graphs, root, i, items[i]);
      }
      assert heap(0) == root;
    }
    assert Unfolds(heap, Ref(0), Arr(items));
  }

  lemma ObjectHasGraph(fields: map<string, Tree>)
    requires forall k :: k in fields ==> HasGraph(fields[k])
    ensures HasGraph(Obj(fields))
  {
    var order := KeysInOrder(fields.Keys);
    var n := |order|;
    var trees := seq(n, i requires 0 <= i < n => fields[order[i]]);
    var graphs := GraphsOf(trees);
    var root := Record(map k | k in fields :: MovedValue(graphs[IndexIn(k, order)].1, n, IndexIn(k, order)));
    var heap := Joined(graphs, root);
    forall levels: nat ensures UnfoldsTo(heap, Ref(0), Obj(fields), levels) {
      forall k | k in fields ensures Unfolds(heap, root.entries[k], fields[k]) {
        JoinedUnfolds(graphs, root, IndexIn(k, order), fields[k]);
      }
      assert heap(0) == root;
    }
    assert Unfolds(heap, Ref(0), Obj(fields));
  }

  lemma {:induction false} TreeHasGraph(t: Tree)
    ensures HasGraph(t)
  {
    match t
    case Prim(p) =>
      var heap: Heap := id => Array([]);
      assert Unfolds(heap, Leaf(p), t);
    case Arr(items) =>
      forall i | 0 <= i < |items| ensures HasGraph(items[i]) { TreeHasGraph(items[i]); }
      ArrayHasGraph(items);
    case Obj(fields) =>
      forall k | k in fields ensures HasGraph(fields[k]) { TreeHasGraph(fields[k]); }
      ObjectHasGraph(fields);
  }

  /** So the result of a scrub can be scrubbed again, as a payload in its own right, and stays what it is. */
  lemma ScrubAgain(heap: Heap, v: Value)
    ensures HasGraph(Scrub(heap, v, 0))
    ensures forall again: Heap, w: Value :: Unfolds(again, w, Scrub(heap, v, 0)) ==> Scrub(again, w, 0) == Scrub(heap, v, 0)
  {
    hide Scrub;
    TreeHasGraph(Scrub(heap, v, 0));
    forall again: Heap, w: Value | Unfolds(again, w, Scrub(heap, v, 0)) ensures Scrub(again, w, 0) == Scrub(heap, v, 0) {
      ScrubTwice(heap, v, again, w, 0);
    }
  }
}
