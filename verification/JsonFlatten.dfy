/**
 * Flattening a JSON tree into `a__b__c` configuration keys.
 */
module JsonFlatten {
  import opened Basics
  import opened Configuration

  datatype Field = Field(key: string, value: Json)

  /** `Other` is every scalar that is not a string: reading it as one throws. */
  datatype Json = Str(text: string) | Other | Arr(items: seq<Json>) | Obj(fields: seq<Field>)

  /** std::to_string of an array index. */
  function ToString(n: nat): (s: string)
    ensures |s| > 0
  {
    if n < 10 then [Digit(n)] else ToString(n / 10) + [Digit(n % 10)]
  }

  /** The members of an array under their index, the members of an object under their key. */
  function Children(j: Json): (cs: seq<Field>)
    ensures forall c :: c in cs ==> c.value < j
    ensures j.Arr? ==> |cs| == |j.items|
  {
    match j
    case Arr(items) => seq(|items|, i requires 0 <= i < |items| => Field(ToString(i), items[i]))
    case Obj(fields) => fields
    case _ => []
  }

  /** What a child's key is appended to. */
  function Under(prefix: string): string { if prefix == "" then "" else prefix + "__" }

  datatype Entry = Entry(key: string, value: string)

  /** The entries set before the walk ends, and whether it ended without an exception. */
  datatype Walk = Walk(entries: seq<Entry>, ok: bool)

  function FlattenTree(prefix: string, j: Json): Walk
    decreases j, 1, 0
  {
    match j
    case Str(s) => Walk([Entry(prefix, s)], true)
    case Other => Walk([], false)
    case _ => FlattenAll(j, Under(prefix), Children(j))
  }

  function FlattenAll(parent: Json, under: string, cs: seq<Field>): Walk
    requires forall c :: c in cs ==> c.value < parent
    decreases parent, 0, |cs|
  {
    if cs == [] then Walk([], true)
    else
      var first := FlattenTree(under + cs[0].key, cs[0].value);
      if !first.ok then first
      else
        var rest := FlattenAll(parent, under, cs[1..]);
        Walk(first.entries + rest.entries, rest.ok)
  }

  function SetAllEntries(s: Layers, es: seq<Entry>): Layers
    decreases |es|
  {
    if es == [] then s else SetAllEntries(Apply(s, Set(es[0].key, es[0].value)), es[1..])
  }

  lemma {:induction false} SetConcat(s: Layers, a: seq<Entry>, b: seq<Entry>)
    ensures SetAllEntries(s, a + b) == SetAllEntries(SetAllEntries(s, a), b)
    decreases |a|
  {
    if a == [] {
      assert a + b == b;
    } else {
      SetConcat(Apply(s, Set(a[0].key, a[0].value)), a[1..], b);
      assert (a + b)[1..] == a[1..] + b;
    }
  }

  /** In state s, children i and later still have to be walked to reach `goal`. */
  ghost predicate Remains(s: Layers, parent: Json, under: string, i: nat, goal: Layers, ok: bool) {
    && i <= |Children(parent)|
    && FlattenAll(parent, under, Children(parent)[i..]).ok == ok
    && SetAllEntries(s, FlattenAll(parent, under, Children(parent)[i..]).entries) == goal
  }

  lemma RemainsStep(s: Layers, parent: Json, under: string, i: nat, goal: Layers, ok: bool)
    requires i < |Children(parent)| && Remains(s, parent, under, i, goal, ok)
    ensures var first := FlattenTree(under + Children(parent)[i].key, Children(parent)[i].value);
      if first.ok then Remains(SetAllEntries(s, first.entries), parent, under, i + 1, goal, ok)
      else !ok && SetAllEntries(s, first.entries) == goal
  {
    var cs := Children(parent);
    assert cs[i..][1..] == cs[i + 1..];
    SetConcat(s, FlattenTree(under + cs[i].key, cs[i].value).entries, FlattenAll(parent, under, cs[i + 1..]).entries);
  }

  lemma ArrayStep(s: Layers, items: seq<Json>, under: string, i: nat, goal: Layers, ok: bool)
    requires i < |items| && Remains(s, Arr(items), under, i, goal, ok)
    ensures var first := FlattenTree(under + ToString(i), items[i]);
      if first.ok then Remains(SetAllEntries(s, first.entries), Arr(items), under, i + 1, goal, ok)
      else !ok && SetAllEntries(s, first.entries) == goal
  {
    RemainsStep(s, Arr(items), under, i, goal, ok);
  }

  lemma ObjectStep(s: Layers, fields: seq<Field>, under: string, i: nat, goal: Layers, ok: bool)
    requires i < |fields| && Remains(s, Obj(fields), under, i, goal, ok)
    ensures var first := FlattenTree(under + fields[i].key, fields[i].value);
      if first.ok then Remains(SetAllEntries(s, first.entries), Obj(fields), under, i + 1, goal, ok)
      else !ok && SetAllEntries(s, first.entries) == goal
  {
    RemainsStep(s, Obj(fields), under, i, goal, ok);
  }

  lemma RemainsAtStart(s: Layers, j: Json, prefix: string)
    ensures j.Arr? || j.Obj? ==>
      var w := FlattenTree(prefix, j); Remains(s, j, Under(prefix), 0, SetAllEntries(s, w.entries), w.ok)
  {
    assert Children(j)[0..] == Children(j);
  }

  lemma RemainsAtEnd(s: Layers, parent: Json, under: string, goal: Layers, ok: bool)
    requires Remains(s, parent, under, |Children(parent)|, goal, ok)
    ensures s == goal && ok
  {
    assert Children(parent)[|Children(parent)|..] == [];
  }

  /** populate: recursion over the tree, each string leaf written into the configuration as it is met. */
  method Populate(config: ConfigurationStore, prefix: string, element: Json) returns (ok: bool)
    requires config.Valid()
    modifies config
    ensures config.Valid()
    ensures config.State() == SetAllEntries(old(config.State()), FlattenTree(prefix, element).entries)
    ensures ok == FlattenTree(prefix, element).ok
    decreases element, 1
  {
    match element {
      case Arr(items) =>
        ok := PopulateArray(config, prefix, items, element);
      case Obj(fields) =>
        ok := PopulateObject(config, prefix, fields, element);
      case Str(s) =>
        config.SetValue(prefix, s);
        ok := true;
      case Other =>
        ok := false;
    }
  }

  /** The array case: children under their index. */
  method PopulateArray(config: ConfigurationStore, prefix: string, items: seq<Json>, ghost element: Json)
    returns (ok: bool)
    requires config.Valid() && element == Arr(items)
    modifies config
    ensures config.Valid()
    ensures config.State() == SetAllEntries(old(config.State()), FlattenTree(prefix, element).entries)
    ensures ok == FlattenTree(prefix, element).ok
    decreases element, 0
  {
    ghost var whole := FlattenTree(prefix, element);
    ghost var goal := SetAllEntries(config.State(), whole.entries);
    RemainsAtStart(config.State(), element, prefix);
    var previousPrefix := if prefix == "" then "" else prefix + "__";
    for i := 0 to |items|
      invariant config.Valid() && Remains(config.State(), element, previousPrefix, i, goal, whole.ok)
    {
      ArrayStep(config.State(), items, previousPrefix, i, goal, whole.ok);
      ok := Populate(config, previousPrefix + ToString(i), items[i]);
      if !ok {
        return;
      }
    }
    RemainsAtEnd(config.State(), element, previousPrefix, goal, whole.ok);
    ok := true;
  }

  /** The object case: children under their key. */
  method PopulateObject(config: ConfigurationStore, prefix: string, fields: seq<Field>, ghost element: Json)
    returns (ok: bool)
    requires config.Valid() && element == Obj(fields)
    modifies config
    ensures config.Valid()
    ensures config.State() == SetAllEntries(old(config.State()), FlattenTree(prefix, element).entries)
    ensures ok == FlattenTree(prefix, element).ok
    decreases element, 0
  {
    ghost var whole := FlattenTree(prefix, element);
    ghost var goal := SetAllEntries(config.State(), whole.entries);
    RemainsAtStart(config.State(), element, prefix);
    var previousPrefix := if prefix == "" then "" else prefix + "__";
    for i := 0 to |fields|
      invariant config.Valid() && Remains(config.State(), element, previousPrefix, i, goal, whole.ok)
    {
      ObjectStep(config.State(), fields, previousPrefix, i, goal, whole.ok);
      ok := Populate(config, previousPrefix + fields[i].key, fields[i].value);
      if !ok {
        return;
      }
    }
    RemainsAtEnd(config.State(), element, previousPrefix, goal, whole.ok);
    ok := true;
  }

  // ---------------------------------------------------------------- leaves and their paths

  /** A leaf in document order; None stands for a scalar that is not a string. */
  datatype Leaf = Leaf(path: seq<string>, text: Option<string>)

  function Prepend(key: string, ls: seq<Leaf>): (r: seq<Leaf>)
    ensures |r| == |ls|
  {
    seq(|ls|, i requires 0 <= i < |ls| => Leaf([key] + ls[i].path, ls[i].text))
  }

  function Leaves(j: Json): seq<Leaf>
    decreases j, 1, 0
  {
    match j
    case Str(s) => [Leaf([], Some(s))]
    case Other => [Leaf([], None)]
    case _ => LeavesAll(j, Children(j))
  }

  function LeavesAll(parent: Json, cs: seq<Field>): seq<Leaf>
    requires forall c :: c in cs ==> c.value < parent
    decreases parent, 0, |cs|
  {
    if cs == [] then [] else Prepend(cs[0].key, Leaves(cs[0].value)) + LeavesAll(parent, cs[1..])
  }

  /** The path with its parts joined by two underscores. */
  function KeyOf(path: seq<string>): string {
    if path == [] then "" else if |path| == 1 then path[0] else path[0] + "__" + KeyOf(path[1..])
  }

  predicate NoDouble(s: string) { forall i :: 0 <= i < |s| - 1 ==> !(s[i] == '_' && s[i + 1] == '_') }

  /** A key that flattening can be undone for. */
  predicate Good(key: string) { key != "" && NoDouble(key) && key[|key| - 1] != '_' }

  /** String leaves only, good keys, no key twice in one object. */
  predicate Plain(j: Json) {
    match j
    case Str(_) => true
    case Other => false
    case Arr(items) => forall v :: v in items ==> Plain(v)
    case Obj(fields) =>
      && (forall f :: f in fields ==> Good(f.key) && Plain(f.value))
      && (forall a, b :: 0 <= a < b < |fields| ==> fields[a].key != fields[b].key)
  }

  lemma {:induction false} ToStringGood(n: nat)
    ensures Good(ToString(n))
    ensures forall i :: 0 <= i < |ToString(n)| ==> ToString(n)[i] != '_'
  {
    if n >= 10 {
      ToStringGood(n / 10);
    }
  }

  function DecimalValue(s: string): int {
    if s == [] then 0 else 10 * DecimalValue(s[..|s| - 1]) + (s[|s| - 1] as int - '0' as int)
  }

  /** The decimal numeral of n: digits only, no leading zero, and its value is n. */
  lemma {:induction false} ToStringIsDecimal(n: nat)
    ensures DecimalValue(ToString(n)) == n
    ensures forall i :: 0 <= i < |ToString(n)| ==> '0' <= ToString(n)[i] <= '9'
    ensures ToString(n)[0] == '0' <==> n == 0
    ensures n == 0 ==> ToString(n) == "0"
  {
    var s := ToString(n);
    if n < 10 {
      assert s[..0] == [];
    } else {
      ToStringIsDecimal(n / 10);
      assert s[..|s| - 1] == ToString(n / 10);
    }
  }

  lemma ToStringInjective(m: nat, n: nat)
    requires ToString(m) == ToString(n)
    ensures m == n
  {
    ToStringIsDecimal(m);
    ToStringIsDecimal(n);
  }

  /** What is walked under a node, in order: items under their decimal index from 0 on, members under their key. */
  lemma ChildrenInOrder(j: Json)
    ensures j.Arr? ==> |Children(j)| == |j.items| && forall i :: 0 <= i < |j.items| ==>
      Children(j)[i].value == j.items[i] && DecimalValue(Children(j)[i].key) == i
    ensures j.Obj? ==> Children(j) == j.fields
    ensures !j.Arr? && !j.Obj? ==> Children(j) == []
  {
    if j.Arr? {
      forall i | 0 <= i < |j.items|
        ensures DecimalValue(Children(j)[i].key) == i
      {
        ToStringIsDecimal(i);
      }
    }
  }

  /** The children of a plain node are plain, under good and pairwise different keys. */
  lemma PlainChildren(j: Json)
    requires Plain(j)
    ensures forall c :: c in Children(j) ==> Good(c.key) && Plain(c.value)
    ensures DistinctKeys(Children(j))
  {
    if j.Arr? {
      var cs := Children(j);
      forall c | c in cs
        ensures Good(c.key) && Plain(c.value)
      {
        var i :| 0 <= i < |cs| && cs[i] == c;
        ToStringGood(i);
        assert j.items[i] in j.items;
      }
      forall a, b | 0 <= a < b < |cs|
        ensures cs[a].key != cs[b].key
      {
        if ToString(a) == ToString(b) {
          ToStringInjective(a, b);
        }
      }
    }
  }

  predicate DistinctKeys(cs: seq<Field>) {
    forall a, b :: 0 <= a < b < |cs| ==> cs[a].key != cs[b].key
  }

  ghost predicate GoodPath(path: seq<string>) { forall i :: 0 <= i < |path| ==> Good(path[i]) }

  ghost predicate DistinctPaths(ls: seq<Leaf>) {
    forall a, b :: 0 <= a < b < |ls| ==> ls[a].path != ls[b].path
  }

  ghost predicate Sound(ls: seq<Leaf>) {
    DistinctPaths(ls) && forall i :: 0 <= i < |ls| ==> GoodPath(ls[i].path)
  }

  lemma {:induction false} LeavesSound(j: Json)
    requires Plain(j)
    ensures Sound(Leaves(j))
    decreases j, 1, 0
  {
    if j.Arr? || j.Obj? {
      PlainChildren(j);
      LeavesAllSound(j, Children(j));
    }
  }

  lemma {:induction false} LeavesAllSound(parent: Json, cs: seq<Field>)
    requires forall c :: c in cs ==> c.value < parent
    requires forall c :: c in cs ==> Good(c.key) && Plain(c.value)
    requires DistinctKeys(cs)
    ensures Sound(LeavesAll(parent, cs))
    ensures forall l :: l in LeavesAll(parent, cs) ==> l.path != [] && exists c :: c in cs && c.key == l.path[0]
    decreases parent, 0, |cs|
  {
    if cs != [] {
      var first, rest := Prepend(cs[0].key, Leaves(cs[0].value)), LeavesAll(parent, cs[1..]);
      LeavesSound(cs[0].value);
      LeavesAllSound(parent, cs[1..]);
      PrependSound(cs[0].key, Leaves(cs[0].value));
      forall l | l in rest
        ensures l.path != [] && l.path[0] != cs[0].key && exists c :: c in cs && c.key == l.path[0]
      {
        var c :| c in cs[1..] && c.key == l.path[0];
        var i :| 0 <= i < |cs[1..]| && cs[1..][i] == c;
        assert cs[i + 1] == c;
      }
      assert cs[0] in cs;
      SoundConcat(first, rest, cs[0].key);
    }
  }

  lemma PrependSound(key: string, ls: seq<Leaf>)
    requires Good(key) && Sound(ls)
    ensures Sound(Prepend(key, ls))
    ensures forall l :: l in Prepend(key, ls) ==> l.path != [] && l.path[0] == key
  {
    var r := Prepend(key, ls);
    forall a, b | 0 <= a < b < |r|
      ensures r[a].path != r[b].path
    {
      assert r[a].path[1..] == ls[a].path && r[b].path[1..] == ls[b].path;
    }
  }

  lemma SoundConcat(a: seq<Leaf>, b: seq<Leaf>, key: string)
    requires Sound(a) && Sound(b)
    requires forall l :: l in a ==> l.path != [] && l.path[0] == key
    requires forall l :: l in b ==> l.path != [] && l.path[0] != key
    ensures Sound(a + b)
  {
  }

  // ---------------------------------------------------------------- joined keys are unique

  /** Good parts can be read off a joined key: the first double underscore ends the first part. */
  lemma {:induction false} KeyOfInjective(p: seq<string>, q: seq<string>)
    requires GoodPath(p) && GoodPath(q) && KeyOf(p) == KeyOf(q)
    ensures p == q
    decreases |p|
  {
    if p != [] && q != [] {
      if |p| > 1 && |q| > 1 {
        SamePart(p[0], KeyOf(p[1..]), q[0], KeyOf(q[1..]));
        KeyOfInjective(p[1..], q[1..]);
        assert p == [p[0]] + p[1..] && q == [q[0]] + q[1..];
      } else if |p| > 1 {
        NotOnePart(p[0], KeyOf(p[1..]), q[0]);
      } else if |q| > 1 {
        NotOnePart(q[0], KeyOf(q[1..]), p[0]);
      }
    } else if p != [] {
      KeyNotEmpty(p);
    } else if q != [] {
      KeyNotEmpty(q);
    }
  }

  lemma KeyNotEmpty(p: seq<string>)
    requires p != [] && GoodPath(p)
    ensures KeyOf(p) != ""
  {
  }

  lemma NotOnePart(a: string, rest: string, b: string)
    requires NoDouble(b)
    ensures a + "__" + rest != b
  {
    var s := a + "__" + rest;
    assert s[|a|] == '_' && s[|a| + 1] == '_';
  }

  lemma SamePart(a: string, x: string, b: string, y: string)
    requires Good(a) && Good(b) && a + "__" + x == b + "__" + y
    ensures a == b && x == y
  {
    if |a| < |b| {
      PartNotLonger(a, x, b, y);
    } else if |b| < |a| {
      PartNotLonger(b, y, a, x);
    }
    var s := a + "__" + x;
    assert a == s[..|a|] && x == s[|a| + 2..];
    assert b == s[..|b|] && y == s[|b| + 2..];
  }

  lemma PartNotLonger(a: string, x: string, b: string, y: string)
    requires Good(b) && a + "__" + x == b + "__" + y
    ensures |b| <= |a|
  {
    var s := a + "__" + x;
    assert s[|a|] == '_' && s[|a| + 1] == '_';
    assert forall i :: 0 <= i < |b| ==> b[i] == (b + "__" + y)[i] == s[i];
  }

  // ---------------------------------------------------------------- flattening is lossless

  function Keyed(prefix: string, path: seq<string>): string
    decreases |path|
  {
    if path == [] then prefix else Keyed(Under(prefix) + path[0], path[1..])
  }

  predicate AllStrings(ls: seq<Leaf>) { forall i :: 0 <= i < |ls| ==> ls[i].text.Some? }

  function Entries(prefix: string, ls: seq<Leaf>): (es: seq<Entry>)
    requires AllStrings(ls)
    ensures |es| == |ls|
  {
    seq(|ls|, i requires 0 <= i < |ls| => Entry(Keyed(prefix, ls[i].path), ls[i].text.value))
  }

  /** The number of leaves before the first that is not a string. */
  function Readable(ls: seq<Leaf>): (n: nat)
    ensures n <= |ls| && AllStrings(ls[..n])
    ensures n < |ls| ==> ls[n].text.None?
  {
    if ls == [] || ls[0].text.None? then 0 else 1 + Readable(ls[1..])
  }

  lemma ReadableIs(ls: seq<Leaf>, n: nat)
    requires n <= |ls| && AllStrings(ls[..n]) && (n < |ls| ==> ls[n].text.None?)
    ensures Readable(ls) == n
  {
    var m := Readable(ls);
    assert forall i :: 0 <= i < n ==> ls[..n][i] == ls[i];
    assert forall i :: 0 <= i < m ==> ls[..m][i] == ls[i];
  }

  /** No leaf is anything but a string. */
  predicate StringsOnly(j: Json) {
    match j
    case Str(_) => true
    case Other => false
    case Arr(items) => forall v :: v in items ==> StringsOnly(v)
    case Obj(fields) => forall f :: f in fields ==> StringsOnly(f.value)
  }

  lemma {:induction false} StringsOnlyIff(j: Json)
    ensures StringsOnly(j) <==> AllStrings(Leaves(j))
    decreases j, 1, 0
  {
    if j.Arr? || j.Obj? {
      var cs := Children(j);
      StringsOnlyAllIff(j, cs);
      if j.Arr? {
        assert forall i :: 0 <= i < |cs| ==> cs[i].value == j.items[i];
        assert (forall v :: v in j.items ==> StringsOnly(v))
          <==> forall i :: 0 <= i < |cs| ==> StringsOnly(cs[i].value);
      } else {
        assert (forall f :: f in cs ==> StringsOnly(f.value))
          <==> forall i :: 0 <= i < |cs| ==> StringsOnly(cs[i].value);
      }
    } else {
      assert |Leaves(j)| == 1 && (Leaves(j)[0].text.Some? <==> j.Str?);
    }
  }

  lemma {:induction false} StringsOnlyAllIff(parent: Json, cs: seq<Field>)
    requires forall c :: c in cs ==> c.value < parent
    ensures (forall i :: 0 <= i < |cs| ==> StringsOnly(cs[i].value)) <==> AllStrings(LeavesAll(parent, cs))
    decreases parent, 0, |cs|
  {
    if cs != [] {
      var first, rest := Prepend(cs[0].key, Leaves(cs[0].value)), LeavesAll(parent, cs[1..]);
      StringsOnlyIff(cs[0].value);
      StringsOnlyAllIff(parent, cs[1..]);
      AllStringsConcat(first, rest);
      AllStringsPrepend(cs[0].key, Leaves(cs[0].value));
      assert (forall i :: 0 <= i < |cs| ==> StringsOnly(cs[i].value))
        <==> StringsOnly(cs[0].value) && forall i :: 0 <= i < |cs[1..]| ==> StringsOnly(cs[1..][i].value) by {
        assert forall i :: 0 < i < |cs| ==> cs[i] == cs[1..][i - 1];
        assert forall i :: 0 <= i < |cs[1..]| ==> cs[1..][i] == cs[i + 1];
      }
    }
  }

  lemma AllStringsPrepend(key: string, ls: seq<Leaf>)
    ensures AllStrings(Prepend(key, ls)) <==> AllStrings(ls)
  {
    assert forall i :: 0 <= i < |ls| ==> Prepend(key, ls)[i].text == ls[i].text;
  }

  lemma AllStringsConcat(a: seq<Leaf>, b: seq<Leaf>)
    ensures AllStrings(a + b) <==> AllStrings(a) && AllStrings(b)
  {
    assert forall i :: 0 <= i < |a| ==> (a + b)[i] == a[i];
    assert forall i :: 0 <= i < |b| ==> (a + b)[|a| + i] == b[i];
  }

  /**
   * Every tree: the walk sets the string leaves in document order, each under the keys of its
   * path, up to the first leaf that is not a string; it ends well exactly when there is none.
   */
  lemma FlattenEveryTree(prefix: string, j: Json)
    ensures var w, ls := FlattenTree(prefix, j), Leaves(j);
      && (w.ok <==> StringsOnly(j))
      && |w.entries| <= |ls|
      && (forall i :: 0 <= i < |w.entries| ==>
            ls[i].text.Some? && w.entries[i] == Entry(Keyed(prefix, ls[i].path), ls[i].text.value))
      && (|w.entries| < |ls| <==> !w.ok)
      && (!w.ok ==> ls[|w.entries|].text.None?)
  {
    var ls := Leaves(j);
    var n := Readable(ls);
    FlattenIsLeaves(prefix, j);
    StringsOnlyIff(j);
    assert n == |ls| ==> ls[..n] == ls;
    assert forall i :: 0 <= i < n ==> ls[..n][i] == ls[i];
  }

  lemma {:induction false} FlattenIsLeaves(prefix: string, j: Json)
    ensures var ls := Leaves(j);
      FlattenTree(prefix, j) == Walk(Entries(prefix, ls[..Readable(ls)]), Readable(ls) == |ls|)
    decreases j, 1, 0
  {
    if j.Arr? || j.Obj? {
      FlattenAllIsLeaves(j, prefix, Children(j));
    }
  }

  lemma {:induction false} FlattenAllIsLeaves(parent: Json, prefix: string, cs: seq<Field>)
    requires forall c :: c in cs ==> c.value < parent
    ensures var ls := LeavesAll(parent, cs);
      FlattenAll(parent, Under(prefix), cs) == Walk(Entries(prefix, ls[..Readable(ls)]), Readable(ls) == |ls|)
    decreases parent, 0, |cs|
  {
    if cs != [] {
      var ls, rest := Leaves(cs[0].value), LeavesAll(parent, cs[1..]);
      FlattenIsLeaves(Under(prefix) + cs[0].key, cs[0].value);
      FlattenAllIsLeaves(parent, prefix, cs[1..]);
      var n := Readable(ls);
      ReadableOfPrepended(prefix, cs[0].key, ls);
      if n == |ls| {
        ReadableConcat(prefix, Prepend(cs[0].key, ls), rest);
      } else {
        ReadableStops(prefix, Prepend(cs[0].key, ls), rest);
      }
    }
  }

  lemma ReadableOfPrepended(prefix: string, key: string, ls: seq<Leaf>)
    ensures var r, n := Prepend(key, ls), Readable(ls);
      Readable(r) == n && Entries(prefix, r[..n]) == Entries(Under(prefix) + key, ls[..n])
  {
    var r, n := Prepend(key, ls), Readable(ls);
    assert forall i :: 0 <= i < n ==> r[..n][i].text == ls[..n][i].text;
    ReadableIs(r, n);
    assert forall i :: 0 <= i < n ==> r[i].path == [key] + ls[i].path && ls[..n][i] == ls[i];
  }

  lemma ReadableConcat(prefix: string, a: seq<Leaf>, b: seq<Leaf>)
    requires Readable(a) == |a|
    ensures Readable(a + b) == |a| + Readable(b)
    ensures Entries(prefix, (a + b)[..Readable(a + b)])
            == Entries(prefix, a[..|a|]) + Entries(prefix, b[..Readable(b)])
  {
    var m := Readable(b);
    assert a[..|a|] == a;
    assert (a + b)[..|a| + m] == a + b[..m];
    AllStringsConcat(a, b[..m]);
    ReadableIs(a + b, |a| + m);
    EntriesConcat(prefix, a, b[..m]);
  }

  lemma EntriesConcat(prefix: string, a: seq<Leaf>, b: seq<Leaf>)
    requires AllStrings(a) && AllStrings(b) && AllStrings(a + b)
    ensures Entries(prefix, a + b) == Entries(prefix, a) + Entries(prefix, b)
  {
  }

  lemma ReadableStops(prefix: string, a: seq<Leaf>, b: seq<Leaf>)
    requires Readable(a) < |a|
    ensures Readable(a + b) == Readable(a)
    ensures (a + b)[..Readable(a + b)] == a[..Readable(a)]
  {
    assert (a + b)[..Readable(a)] == a[..Readable(a)];
    ReadableIs(a + b, Readable(a));
  }

  lemma JoinStep(under: string, part: string, rest: string)
    ensures under + part + "__" + rest == under + (part + "__" + rest)
  {
  }

  lemma {:induction false} KeyedIsJoined(prefix: string, path: seq<string>)
    requires GoodPath(path) && prefix != "" && path != []
    ensures Keyed(prefix, path) == prefix + "__" + KeyOf(path)
    decreases |path|
  {
    var next := prefix + "__" + path[0];
    if |path| == 1 {
      assert Keyed(next, path[1..]) == next;
    } else {
      KeyedIsJoined(next, path[1..]);
      JoinStep(prefix + "__", path[0], KeyOf(path[1..]));
    }
  }

  lemma KeyedFromRoot(path: seq<string>)
    requires GoodPath(path)
    ensures Keyed("", path) == KeyOf(path)
  {
    if path != [] {
      assert Good(path[0]);
      assert "" + path[0] == path[0];
      if |path| > 1 {
        KeyedIsJoined(path[0], path[1..]);
      } else {
        assert Keyed(path[0], path[1..]) == path[0];
      }
    }
  }

  lemma {:induction false} OtherKeysStay(s: Layers, es: seq<Entry>, key: string)
    requires forall e :: e in es ==> e.key != key
    ensures key in SetAllEntries(s, es).options <==> key in s.options
    ensures key in s.options ==> SetAllEntries(s, es).options[key] == s.options[key]
    decreases |es|
  {
    if es != [] {
      assert forall e :: e in es[1..] ==> e in es;
      assert es[0] in es;
      OtherKeysStay(Apply(s, Set(es[0].key, es[0].value)), es[1..], key);
    }
  }

  lemma {:induction false} DistinctEntriesStay(s: Layers, es: seq<Entry>, i: nat)
    requires i < |es| && forall a, b :: 0 <= a < b < |es| ==> es[a].key != es[b].key
    ensures es[i].key in SetAllEntries(s, es).options && SetAllEntries(s, es).options[es[i].key] == es[i].value
    decreases |es|
  {
    var s', rest := Apply(s, Set(es[0].key, es[0].value)), es[1..];
    if i == 0 {
      OtherKeysStay(s', rest, es[0].key);
    } else {
      DistinctEntriesStay(s', rest, i - 1);
    }
  }

  lemma {:induction false} PlainHasStrings(j: Json)
    requires Plain(j)
    ensures StringsOnly(j)
  {
    match j
    case Arr(items) =>
      forall v | v in items
        ensures StringsOnly(v)
      {
        PlainHasStrings(v);
      }
    case Obj(fields) =>
      forall f | f in fields
        ensures StringsOnly(f.value)
      {
        PlainHasStrings(f.value);
      }
    case _ =>
  }

  /**
   * Flattening a plain tree into an empty configuration loses nothing and invents
   * nothing: every leaf's value stands under its joined path, different leaves have
   * different keys, and there is no other key.
   */
  lemma FlatteningIsLossless(j: Json)
    requires Plain(j)
    ensures var ls, w := Leaves(j), FlattenTree("", j);
      var options := SetAllEntries(EMPTY, w.entries).options;
      && w.ok
      && (forall i :: 0 <= i < |ls| ==> KeyOf(ls[i].path) in options && Some(options[KeyOf(ls[i].path)]) == ls[i].text)
      && (forall a, b :: 0 <= a < b < |ls| ==> KeyOf(ls[a].path) != KeyOf(ls[b].path))
      && (forall k :: k in options ==> exists i :: 0 <= i < |ls| && KeyOf(ls[i].path) == k)
  {
    var ls := Leaves(j);
    LeavesSound(j);
    PlainHasStrings(j);
    StringsOnlyIff(j);
    FlattenEveryTree("", j);
    var es := FlattenTree("", j).entries;
    forall i | 0 <= i < |ls|
      ensures es[i] == Entry(KeyOf(ls[i].path), ls[i].text.value)
    {
      KeyedFromRoot(ls[i].path);
    }
    forall a, b | 0 <= a < b < |ls|
      ensures KeyOf(ls[a].path) != KeyOf(ls[b].path)
    {
      if KeyOf(ls[a].path) == KeyOf(ls[b].path) {
        KeyOfInjective(ls[a].path, ls[b].path);
      }
    }
    forall i | 0 <= i < |ls|
      ensures KeyOf(ls[i].path) in SetAllEntries(EMPTY, es).options
      ensures SetAllEntries(EMPTY, es).options[KeyOf(ls[i].path)] == ls[i].text.value
    {
      DistinctEntriesStay(EMPTY, es, i);
    }
    forall k | k in SetAllEntries(EMPTY, es).options
      ensures exists i :: 0 <= i < |ls| && KeyOf(ls[i].path) == k
    {
      if forall e :: e in es ==> e.key != k {
        OtherKeysStay(EMPTY, es, k);
        assert false;
      }
      var e :| e in es && e.key == k;
      var i :| 0 <= i < |es| && es[i] == e;
      assert KeyOf(ls[i].path) == k;
    }
  }

  // ---------------------------------------------------------------- keys that are not good

  lemma OneMember(prefix: string, key: string, value: string)
    ensures FlattenTree(prefix, Obj([Field(key, Str(value))])) == Walk([Entry(Under(prefix) + key, value)], true)
  {
    var t := Obj([Field(key, Str(value))]);
    assert Children(t)[1..] == [];
    assert FlattenAll(t, Under(prefix), []) == Walk([], true);
    assert FlattenTree(Under(prefix) + key, Str(value)) == Walk([Entry(Under(prefix) + key, value)], true);
  }

  lemma SecondWins(key: string, x: string, y: string)
    ensures SetAllEntries(EMPTY, [Entry(key, x), Entry(key, y)]).options == map[key := y]
  {
    var es, first := [Entry(key, x), Entry(key, y)], Apply(EMPTY, Set(key, x));
    assert es[1..] == [Entry(key, y)] && es[1..][1..] == [];
    assert SetAllEntries(first, es[1..]) == SetAllEntries(Apply(first, Set(key, y)), []);
  }

  /** What a tree leaves in an empty configuration. */
  function Flattened(j: Json): map<string, string> {
    SetAllEntries(EMPTY, FlattenTree("", j).entries).options
  }

  /** Two members that flatten to one and the same key: the first value is lost. */
  lemma TwoMembersCollide(f: Field, g: Field, key: string, x: string, y: string)
    requires FlattenTree(f.key, f.value) == Walk([Entry(key, x)], true)
    requires FlattenTree(g.key, g.value) == Walk([Entry(key, y)], true)
    ensures Flattened(Obj([f, g])) == map[key := y]
  {
    var t := Obj([f, g]);
    assert "" + f.key == f.key && "" + g.key == g.key;
    assert Children(t)[1..] == [g] && [g][1..] == [];
    assert FlattenAll(t, "", []) == Walk([], true);
    assert FlattenAll(t, "", [g]) == Walk([Entry(key, y)], true);
    assert FlattenTree("", t) == Walk([Entry(key, x), Entry(key, y)], true);
    SecondWins(key, x, y);
  }

  /**
   * Without each of the three conditions on keys there is a tree, otherwise plain, that loses
   * a leaf: x and y are both set under one key, and x is gone.
   */
  lemma BadKeysCollide(x: string, y: string)
    ensures Flattened(Obj([Field("a__b", Str(x)), Field("a", Obj([Field("b", Str(y))]))])) == map["a__b" := y]
    ensures Flattened(Obj([Field("a_", Obj([Field("b", Str(x))])), Field("a", Obj([Field("_b", Str(y))]))]))
            == map["a___b" := y]
    ensures Flattened(Obj([Field("", Obj([Field("b", Str(x))])), Field("b", Str(y))])) == map["b" := y]
  {
    OneMember("a", "b", y);
    assert Under("a") + "b" == "a__b";
    TwoMembersCollide(Field("a__b", Str(x)), Field("a", Obj([Field("b", Str(y))])), "a__b", x, y);

    OneMember("a_", "b", x);
    OneMember("a", "_b", y);
    assert Under("a_") + "b" == Under("a") + "_b" == "a___b";
    TwoMembersCollide(Field("a_", Obj([Field("b", Str(x))])), Field("a", Obj([Field("_b", Str(y))])), "a___b", x, y);

    OneMember("", "b", x);
    assert Under("") + "b" == "b";
    TwoMembersCollide(Field("", Obj([Field("b", Str(x))])), Field("b", Str(y)), "b", x, y);
  }
}
