/** Key-case conversion of JSON trees: client/web/src/camel.ts. */
module KeyCase {

  predicate IsLower(c: char) { 'a' <= c <= 'z' }

  predicate IsUpper(c: char) { 'A' <= c <= 'Z' }

  function ToUpper(c: char): (u: char)
    requires IsLower(c)
    ensures IsUpper(u) && ToLower(u) == c
  {
    'A' + (c - 'a')
  }

  function ToLower(c: char): (l: char)
    requires IsUpper(c)
    ensures IsLower(l)
  {
    'a' + (c - 'A')
  }

  /** key.replace(/_([a-z])/g, letter in upper case). */
  function CamelKey(k: string): string {
    if k == "" then ""
    else if |k| > 1 && k[0] == '_' && IsLower(k[1]) then [ToUpper(k[1])] + CamelKey(k[2..])
    else [k[0]] + CamelKey(k[1..])
  }

  /** key.replace(/[A-Z]/g, underscore and letter in lower case). */
  function SnakeKey(k: string): string {
    if k == "" then ""
    else if IsUpper(k[0]) then ['_', ToLower(k[0])] + SnakeKey(k[1..])
    else [k[0]] + SnakeKey(k[1..])
  }

  datatype Case = Camel | Snake {
    function Other(): Case {
      if Camel? then Snake else Camel
    }

    function Key(k: string): string {
      if Camel? then CamelKey(k) else SnakeKey(k)
    }
  }

  datatype Json = Atom(text: string) | Arr(items: seq<Json>) | Obj(entries: seq<Entry>)

  datatype Entry = Entry(key: string, value: Json)

  /** Assigning to this key sets the object's prototype and makes no property. */
  const PROTO := "__proto__"

  function KeyIndex(es: seq<Entry>, k: string): (i: int)
    ensures -1 <= i < |es|
    ensures i >= 0 ==> es[i].key == k
    ensures i < 0 ==> forall j :: 0 <= j < |es| ==> es[j].key != k
  {
    if es == [] then -1
    else if es[|es| - 1].key == k then |es| - 1
    else KeyIndex(es[..|es| - 1], k)
  }

  /** out[key] = value on the own properties of an object, in order. */
  function Put(es: seq<Entry>, k: string, v: Json): seq<Entry> {
    var i := KeyIndex(es, k);
    if k == PROTO then es else if i >= 0 then es[i := Entry(k, v)] else es + [Entry(k, v)]
  }

  /** camelize for Camel, snakify for Snake. */
  function Convert(c: Case, t: Json): Json
    decreases t
  {
    match t
    case Atom(_) => t
    case Arr(items) => Arr(seq(|items|, i requires 0 <= i < |items| => Convert(c, items[i])))
    case Obj(es) => Obj(ConvertInto(c, [], es))
  }

  function ConvertInto(c: Case, out: seq<Entry>, es: seq<Entry>): seq<Entry>
    decreases es
  {
    if es == [] then out
    else ConvertInto(c, Put(out, c.Key(es[0].key), Convert(c, es[0].value)), es[1..])
  }

  method ConvertJson(c: Case, value: Json) returns (r: Json)
    ensures r == Convert(c, value)
    decreases value
  {
    hide Case.Key, Put;
    match value
    case Atom(_) => r := value;
    case Arr(items) =>
      var converted: seq<Json> := [];
      for i := 0 to |items|
        invariant |converted| == i && forall k :: 0 <= k < i ==> converted[k] == Convert(c, items[k])
      {
        var item := ConvertJson(c, items[i]);
        converted := converted + [item];
      }
      r := Arr(converted);
    case Obj(es) =>
      var out: seq<Entry> := [];
      assert es[0..] == es;
      for i := 0 to |es|
        invariant ConvertInto(c, out, es[i..]) == ConvertInto(c, [], es)
      {
        assert es[i..][1..] == es[i + 1..] && es[i..][0] == es[i];
        var item := ConvertJson(c, es[i].value);
        out := Put(out, c.Key(es[i].key), item);
      }
      r := Obj(out);
  }

  // ---------------------------------------------------------------------------
  // Keys

  predicate NoUpper(k: string) {
    forall i :: 0 <= i < |k| ==> !IsUpper(k[i])
  }

  /** No underscore is followed by a lower-case letter. */
  predicate NoHump(k: string) {
    forall i, j :: 0 <= i < |k| && 0 <= j < |k| && j == i + 1 && k[i] == '_' ==> !IsLower(k[j])
  }

  /** What every key that a conversion writes looks like. */
  predicate Written(c: Case, k: string) {
    k != PROTO && if c.Camel? then NoHump(k) else NoUpper(k)
  }

  /** The keys that survive a conversion and its inverse. */
  predicate Survives(c: Case, k: string) {
    if c.Camel? then NoUpper(k) && k != PROTO else NoHump(k) && k != HumpedProto()
  }

  lemma {:induction false} SnakeCamel(k: string)
    requires NoUpper(k)
    ensures SnakeKey(CamelKey(k)) == k
    decreases |k|
  {
    if k != "" {
      if |k| > 1 && k[0] == '_' && IsLower(k[1]) {
        SnakeCamel(k[2..]);
        assert CamelKey(k)[1..] == CamelKey(k[2..]);
        assert k == ['_', k[1]] + k[2..];
      } else {
        SnakeCamel(k[1..]);
        assert CamelKey(k)[1..] == CamelKey(k[1..]);
        assert k == [k[0]] + k[1..];
      }
    }
  }

  lemma {:induction false} CamelSnake(k: string)
    requires NoHump(k)
    ensures CamelKey(SnakeKey(k)) == k
  {
    if k != "" {
      assert NoHump(k[1..]) by { NoHumpTail(k); }
      CamelSnake(k[1..]);
      var s, rest := SnakeKey(k), SnakeKey(k[1..]);
      assert k == [k[0]] + k[1..];
      if IsUpper(k[0]) {
        assert s[2..] == rest && s[0] == '_' && s[1] == ToLower(k[0]);
      } else {
        assert s[1..] == rest && s[0] == k[0];
        if |k| > 1 {
          assert rest[0] == if IsUpper(k[1]) then '_' else k[1];
        } else {
          assert rest == "";
        }
      }
    }
  }

  /** Camelizing leaves what has no underscore, and turns an underscore before a small letter
      into its capital. */
  lemma {:induction false} CamelWord(a: string, c: char, b: string)
    requires '_' !in a && IsLower(c)
    ensures CamelKey(a) == a
    ensures CamelKey(a + ['_', c] + b) == a + [(c as int - 32) as char] + CamelKey(b)
  {
    var k := a + ['_', c] + b;
    if a == "" {
      assert k[2..] == b && k[0] == '_' && k[1] == c;
    } else {
      assert k[1..] == a[1..] + ['_', c] + b && k[0] == a[0] && a[0] in a;
      CamelWord(a[1..], c, b);
    }
  }

  /** Snakifying leaves what has no capital, and turns a capital into an underscore and its
      small letter. */
  lemma {:induction false} SnakeWord(a: string, c: char, b: string)
    requires NoUpper(a) && IsUpper(c)
    ensures SnakeKey(a) == a
    ensures SnakeKey(a + [c] + b) == a + ['_', (c as int + 32) as char] + SnakeKey(b)
  {
    var k := a + [c] + b;
    if a == "" {
      assert k[1..] == b && k[0] == c;
    } else {
      assert k[1..] == a[1..] + [c] + b && k[0] == a[0];
      SnakeWord(a[1..], c, b);
    }
  }

  lemma NoHumpTail(k: string)
    requires NoHump(k) && k != ""
    ensures NoHump(k[1..])
  {
    forall i, j | 0 <= i < |k| - 1 && 0 <= j < |k| - 1 && j == i + 1 && k[1..][i] == '_' ensures !IsLower(k[1..][j]) {
      assert k[i + 1] == '_' && k[j + 1] == k[1..][j];
    }
  }

  lemma NoHumpCons(c: char, k: string)
    requires NoHump(k) && (c == '_' && k != "" ==> !IsLower(k[0]))
    ensures NoHump([c] + k)
  {
    var s := [c] + k;
    forall i, j | 0 <= i < |s| && 0 <= j < |s| && j == i + 1 && s[i] == '_' ensures !IsLower(s[j]) {
      if i > 0 { assert s[i] == k[i - 1] && s[j] == k[j - 1]; }
    }
  }

  lemma {:induction false} CamelHasNoHump(k: string)
    ensures NoHump(CamelKey(k)) && CamelKey(k) != PROTO
    ensures k != "" ==> CamelKey(k)[0] == (if |k| > 1 && k[0] == '_' && IsLower(k[1]) then ToUpper(k[1]) else k[0])
    decreases |k|
  {
    if k != "" {
      if |k| > 1 && k[0] == '_' && IsLower(k[1]) {
        CamelHasNoHump(k[2..]);
        NoHumpCons(ToUpper(k[1]), CamelKey(k[2..]));
      } else {
        CamelHasNoHump(k[1..]);
        NoHumpCons(k[0], CamelKey(k[1..]));
      }
    }
    assert PROTO[1] == '_' && PROTO[2] == 'p' && IsLower(PROTO[2]);
  }

  lemma {:induction false} SnakeHasNoUpper(k: string)
    ensures NoUpper(SnakeKey(k))
  {
    if k != "" { SnakeHasNoUpper(k[1..]); }
  }

  /** The one name that is snakified to the prototype key. */
  function HumpedProto(): string {
    "_Proto__"
  }

  /** "roto__" is the same in both cases. */
  lemma Rest(r: string)
    requires r == ['r', 'o', 't', 'o', '_', '_']
    ensures SnakeKey(r) == r && CamelKey(r) == r
  {
    var r1, r2, r3, r4, r5 := r[1..], r[2..], r[3..], r[4..], r[5..];
    assert r1[1..] == r2 && r2[1..] == r3 && r3[1..] == r4 && r4[1..] == r5 && r5[1..] == "";
    assert SnakeKey(r5) == r5 && CamelKey(r5) == r5;
    assert SnakeKey(r4) == r4 && CamelKey(r4) == r4;
    assert SnakeKey(r3) == r3 && CamelKey(r3) == r3;
    assert SnakeKey(r2) == r2 && CamelKey(r2) == r2;
    assert SnakeKey(r1) == r1 && CamelKey(r1) == r1;
  }

  lemma ProtoKeys()
    ensures SnakeKey(HumpedProto()) == PROTO && CamelKey(PROTO) == HumpedProto()
    ensures NoUpper(PROTO) && NoHump(HumpedProto())
  {
    var r := ['r', 'o', 't', 'o', '_', '_'];
    var p, q := ['P'] + r, ['_', 'p'] + r;
    Rest(r);
    assert HumpedProto() == ['_'] + p && PROTO == ['_'] + q;
    ProtoSteps(r, p, q);
    SnakeHasNoUpper(HumpedProto());
    CamelHasNoHump(PROTO);
  }

  lemma ProtoSteps(r: string, p: string, q: string)
    requires SnakeKey(r) == r && CamelKey(r) == r && p == ['P'] + r && q == ['_', 'p'] + r
    ensures SnakeKey(['_'] + p) == ['_'] + q && CamelKey(['_'] + q) == ['_'] + p
  {
    assert p[1..] == r && q[2..] == r && (['_'] + p)[1..] == p && (['_'] + q)[1..] == q;
    assert SnakeKey(p) == q && CamelKey(q) == p;
  }

  lemma ProtoHasHump()
    ensures !NoHump(PROTO)
  {
    assert PROTO[1] == '_' && PROTO[2] == 'p' && IsLower(PROTO[2]);
  }

  /** A key that survives comes back, and is converted to a proper property name. */
  lemma KeyBack(c: Case, k: string)
    requires Survives(c, k)
    ensures c.Other().Key(c.Key(k)) == k && c.Key(k) != PROTO && k != PROTO
  {
    if c.Camel? {
      SnakeCamel(k);
      CamelHasNoHump(k);
    } else {
      CamelSnake(k);
      ProtoKeys();
      CamelHasNoHump(HumpedProto());
      ProtoHasHump();
    }
  }

  // ---------------------------------------------------------------------------
  // Trees

  /** Keys are distinct in every object, as JSON.parse leaves them. */
  predicate Distinct(t: Json) {
    match t
    case Atom(_) => true
    case Arr(items) => forall x :: x in items ==> Distinct(x)
    case Obj(es) =>
      && (forall i, j :: 0 <= i < j < |es| ==> es[i].key != es[j].key)
      && (forall e :: e in es ==> Distinct(e.value))
  }

  predicate AllSurvive(c: Case, t: Json) {
    match t
    case Atom(_) => true
    case Arr(items) => forall x :: x in items ==> AllSurvive(c, x)
    case Obj(es) => forall e :: e in es ==> Survives(c, e.key) && AllSurvive(c, e.value)
  }

  predicate DistinctKeys(es: seq<Entry>) {
    forall i, j :: 0 <= i < j < |es| ==> es[i].key != es[j].key
  }

  predicate KeysSurvive(c: Case, es: seq<Entry>) {
    forall i :: 0 <= i < |es| ==> Survives(c, es[i].key)
  }

  /** Converting entry by entry. */
  function MapEntries(c: Case, es: seq<Entry>): (r: seq<Entry>)
    ensures |r| == |es|
    ensures forall i :: 0 <= i < |es| ==> r[i] == Entry(c.Key(es[i].key), Convert(c, es[i].value))
  {
    if es == [] then []
    else MapEntries(c, es[..|es| - 1]) + [Entry(c.Key(es[|es| - 1].key), Convert(c, es[|es| - 1].value))]
  }

  lemma PutNew(out: seq<Entry>, k: string, v: Json)
    requires k != PROTO && forall i :: 0 <= i < |out| ==> out[i].key != k
    ensures Put(out, k, v) == out + [Entry(k, v)]
  {}

  /** Without collisions and without the prototype key, the loop maps entry by entry. */
  lemma {:induction false} IntoIsMap(c: Case, out: seq<Entry>, es: seq<Entry>)
    requires forall i, j :: 0 <= i < j < |es| ==> c.Key(es[i].key) != c.Key(es[j].key)
    requires forall i, j :: 0 <= i < |out| && 0 <= j < |es| ==> out[i].key != c.Key(es[j].key)
    requires forall i :: 0 <= i < |es| ==> c.Key(es[i].key) != PROTO
    ensures ConvertInto(c, out, es) == out + MapEntries(c, es)
    decreases |es|
  {
    hide Case.Key, Convert, Put, MapEntries;
    if es == [] {
      assert out + MapEntries(c, []) == out;
    } else {
      var e := Entry(c.Key(es[0].key), Convert(c, es[0].value));
      PutNew(out, e.key, e.value);
      IntoIsMap(c, out + [e], es[1..]);
      assert out + MapEntries(c, es) == out + [e] + MapEntries(c, es[1..]);
    }
  }

  /** On keys that survive, a conversion maps entry by entry, and its inverse maps back. */
  lemma ObjBack(c: Case, es: seq<Entry>)
    requires DistinctKeys(es) && KeysSurvive(c, es)
    ensures var there := MapEntries(c, es);
            && ConvertInto(c, [], es) == there
            && ConvertInto(c.Other(), [], there) == MapEntries(c.Other(), there)
            && forall i :: 0 <= i < |es| ==> c.Other().Key(there[i].key) == es[i].key
  {
    hide Case.Key, Survives, Convert;
    forall i | 0 <= i < |es|
      ensures c.Other().Key(c.Key(es[i].key)) == es[i].key && c.Key(es[i].key) != PROTO && es[i].key != PROTO
    {
      KeyBack(c, es[i].key);
    }
    var there := MapEntries(c, es);
    IntoIsMap(c, [], es);
    IntoIsMap(c.Other(), [], there);
  }

  /** Every key that the loop leaves is the conversion of some key, and none is the
      prototype key. */
  lemma {:induction false} IntoWrites(c: Case, from: set<string>, out: seq<Entry>, es: seq<Entry>)
    requires forall e :: e in es ==> e.key in from
    requires forall e :: e in out ==> WrittenFrom(c, from, e.key)
    ensures forall e :: e in ConvertInto(c, out, es) ==> WrittenFrom(c, from, e.key)
    decreases |es|
  {
    hide Case.Key, Convert, KeyIndex;
    if es != [] {
      var k := c.Key(es[0].key);
      assert es[0] in es;
      IntoWrites(c, from, Put(out, k, Convert(c, es[0].value)), es[1..]);
    }
  }

  ghost predicate WrittenFrom(c: Case, from: set<string>, key: string) {
    key != PROTO && exists k :: k in from && c.Key(k) == key
  }

  function Keys(es: seq<Entry>): set<string> {
    set e | e in es :: e.key
  }

  lemma WrittenIs(c: Case, from: set<string>, key: string)
    requires WrittenFrom(c, from, key)
    ensures Written(c, key)
  {
    var k :| k in from && c.Key(k) == key;
    if c.Camel? { CamelHasNoHump(k); } else { SnakeHasNoUpper(k); }
  }

  /** An object that comes back from a conversion and its inverse has only keys that survive. */
  lemma ObjSurvives(c: Case, es: seq<Entry>, there: seq<Entry>)
    requires there == ConvertInto(c, [], es) && ConvertInto(c.Other(), [], there) == es
    ensures KeysSurvive(c, es)
  {
    hide Case.Key, Convert, Put, ConvertInto, Survives, WrittenFrom;
    IntoWrites(c, Keys(es), [], es);
    IntoWrites(c.Other(), Keys(there), [], there);
    forall i | 0 <= i < |es| ensures Survives(c, es[i].key) {
      assert es[i] in es;
      KeySurvives(c, Keys(es), Keys(there), es[i].key) by {
        forall k | k in Keys(there) ensures WrittenFrom(c, Keys(es), k) { NotProto(c, es, k); }
      }
    }
  }

  lemma KeySurvives(c: Case, from: set<string>, there: set<string>, key: string)
    requires forall k :: k in there ==> WrittenFrom(c, from, k)
    requires WrittenFrom(c.Other(), there, key)
    ensures Survives(c, key)
  {
    hide NoHump, NoUpper;
    WrittenIs(c.Other(), there, key);
    var k :| k in there && c.Other().Key(k) == key;
    WrittenIs(c, from, k);
    if c.Snake? && key == HumpedProto() { OnlyProto(k); }
  }

  lemma NotProto(c: Case, es: seq<Entry>, k: string)
    requires forall e :: e in ConvertInto(c, [], es) ==> WrittenFrom(c, Keys(es), e.key)
    requires k in Keys(ConvertInto(c, [], es))
    ensures WrittenFrom(c, Keys(es), k)
  {}

  /** Only the prototype key is camelized to the name that is snakified to it. */
  lemma OnlyProto(k: string)
    requires NoUpper(k) && CamelKey(k) == HumpedProto()
    ensures k == PROTO
  {
    SnakeCamel(k);
    ProtoKeys();
  }

  lemma ArrIff(c: Case, items: seq<Json>)
    requires forall x :: x in items ==> (Convert(c.Other(), Convert(c, x)) == x <==> AllSurvive(c, x))
    ensures Convert(c.Other(), Convert(c, Arr(items))) == Arr(items) <==> AllSurvive(c, Arr(items))
  {
    hide Survives, Case.Key, ConvertInto, Case.Other;
    var there := Convert(c, Arr(items)).items;
    var back := Convert(c.Other(), Arr(there)).items;
    assert forall i :: 0 <= i < |items| ==> back[i] == Convert(c.Other(), Convert(c, items[i])) && items[i] in items;
    if AllSurvive(c, Arr(items)) { assert back == items; }
  }

  lemma ObjIff(c: Case, es: seq<Entry>)
    requires DistinctKeys(es)
    requires forall e :: e in es ==> (Convert(c.Other(), Convert(c, e.value)) == e.value <==> AllSurvive(c, e.value))
    ensures var there := ConvertInto(c, [], es);
            ConvertInto(c.Other(), [], there) == es <==>
            KeysSurvive(c, es) && forall e :: e in es ==> AllSurvive(c, e.value)
  {
    hide Survives, Case.Key, ConvertInto, Convert, AllSurvive, Case.Other;
    var there := ConvertInto(c, [], es);
    if KeysSurvive(c, es) {
      ObjBack(c, es);
      var back := MapEntries(c.Other(), there);
      assert forall i :: 0 <= i < |es| ==> back[i] == Entry(es[i].key, Convert(c.Other(), Convert(c, es[i].value))) && es[i] in es;
      if forall e :: e in es ==> AllSurvive(c, e.value) { assert back == es; }
    } else if ConvertInto(c.Other(), [], there) == es {
      ObjSurvives(c, es, there);
    }
  }

  lemma AllSurviveObj(c: Case, es: seq<Entry>)
    ensures AllSurvive(c, Obj(es)) <==> KeysSurvive(c, es) && forall e :: e in es ==> AllSurvive(c, e.value)
  {
    hide Survives;
    assert forall i :: 0 <= i < |es| ==> es[i] in es;
  }

  /** For every tree with distinct keys: converting the keys and converting them back gives
      the tree exactly when every key survives. */
  lemma {:induction false} RoundTripIff(c: Case, t: Json)
    requires Distinct(t)
    ensures Convert(c.Other(), Convert(c, t)) == t <==> AllSurvive(c, t)
    decreases t
  {
    hide Survives, Case.Key, ConvertInto, Case.Other;
    match t
    case Atom(_) =>
    case Arr(items) =>
      forall x | x in items ensures Convert(c.Other(), Convert(c, x)) == x <==> AllSurvive(c, x) {
        RoundTripIff(c, x);
      }
      ArrIff(c, items);
    case Obj(es) =>
      forall e | e in es ensures Convert(c.Other(), Convert(c, e.value)) == e.value <==> AllSurvive(c, e.value) {
        RoundTripIff(c, e.value);
      }
      ObjIff(c, es);
      AllSurviveObj(c, es);
  }

  /** Keys without upper-case letters are not enough: of this tree the property named
      "__proto__" does not come back. */
  lemma ProtoIsLost()
    ensures var t := Obj([Entry(PROTO, Atom("1"))]);
            Distinct(t) && NoUpper(PROTO) && Convert(Snake, Convert(Camel, t)) != t
  {
    var t := Obj([Entry(PROTO, Atom("1"))]);
    ProtoKeys();
    RoundTripIff(Camel, t);
    assert t.entries[0] in t.entries;
  }
}
