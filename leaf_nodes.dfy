/** Flattening a nested GLEIF record into dotted column names, and the per-record
    transform that drops the six identifier keys before flattening. */
module LeafNodes {
  import opened Frames

  /** A decoded JSON value: an object as its members in insertion order, an
      array, or a scalar (`None` for null). */
  datatype Json = Dict(members: seq<Member>) | List(items: seq<Json>) | Leaf(value: Cell)
  datatype Member = Member(key: string, value: Json)

  // ---------------------------------------------------------------- Keys

  /** The key of a dictionary member: `parent.key`, or the bare key at the top. */
  function FullKey(parent: string, key: string): (r: string)
    ensures parent == "" ==> r == key
    ensures parent != "" ==> parent + "." <= r && r[|parent| + 1..] == key
  {
    if parent != "" then parent + "." + key else key
  }

  /** The key of the `n`-th list element (counted from 1): always `parent.n`,
      even at the top, where it starts with a dot. */
  function IndexKey(parent: string, n: nat): (r: string)
    ensures parent + "." <= r && r[|parent| + 1..] == NatToString(n)
  {
    parent + "." + NatToString(n)
  }

  function Digit(d: nat): char
    requires d < 10
  {
    "0123456789"[d]
  }

  /** The decimal numeral of `n`. */
  function NatToString(n: nat): (s: string)
    ensures s != [] && '.' !in s
  {
    if n < 10 then [Digit(n)] else NatToString(n / 10) + [Digit(n % 10)]
  }

  /** `k` is `p` itself or lies below it (`p.` followed by anything); every key
      lies below the empty parent. */
  predicate Under(k: string, p: string)
  {
    p == "" || k == p || p + "." <= k
  }

  // ---------------------------------------------------------------- Specification

  /** The flat map of dotted paths to scalars: members and elements are visited in
      order and a later path that repeats an earlier one overwrites it. */
  function Leaves(d: Json, parent: string): (r: map<string, Cell>)
    ensures d.Leaf? ==> r.Keys == {parent} && r[parent] == d.value
  {
    match d
    case Leaf(v) => map[parent := v]
    case Dict(ms) => MembersLeaves(ms, parent)
    case List(items) => ItemsLeaves(items, parent)
  }

  function MembersLeaves(ms: seq<Member>, parent: string): (r: map<string, Cell>)
    ensures ms == [] ==> r == map[]
    ensures ms != [] ==> MemberLeaves(ms, parent, |ms| - 1).Keys <= r.Keys
  {
    if ms == [] then map[]
    else MembersLeaves(ms[..|ms| - 1], parent) + Leaves(ms[|ms| - 1].value, FullKey(parent, ms[|ms| - 1].key))
  }

  function ItemsLeaves(items: seq<Json>, parent: string): (r: map<string, Cell>)
    ensures items == [] ==> r == map[]
    ensures items != [] ==> ItemLeaves(items, parent, |items| - 1).Keys <= r.Keys
  {
    if items == [] then map[]
    else ItemsLeaves(items[..|items| - 1], parent) + Leaves(items[|items| - 1], IndexKey(parent, |items|))
  }

  /** What member `j` contributes on its own. */
  function MemberLeaves(ms: seq<Member>, parent: string, j: nat): map<string, Cell>
    requires j < |ms|
  {
    Leaves(ms[j].value, FullKey(parent, ms[j].key))
  }

  /** What element `j` (counted from 0, numbered `j + 1`) contributes on its own. */
  function ItemLeaves(items: seq<Json>, parent: string, j: nat): map<string, Cell>
    requires j < |items|
  {
    Leaves(items[j], IndexKey(parent, j + 1))
  }

  /** Whether `d` holds a scalar anywhere. */
  predicate HasLeaf(d: Json)
  {
    match d
    case Leaf(_) => true
    case Dict(ms) => exists j :: 0 <= j < |ms| && HasLeaf(ms[j].value)
    case List(items) => exists j :: 0 <= j < |items| && HasLeaf(items[j])
  }

  /** The scalars of `d`. */
  function LeafValues(d: Json): set<Cell>
  {
    match d
    case Leaf(v) => {v}
    case Dict(ms) => set j, c | 0 <= j < |ms| && c in LeafValues(ms[j].value) :: c
    case List(items) => set j, c | 0 <= j < |items| && c in LeafValues(items[j]) :: c
  }

  // ---------------------------------------------------------------- The flattening

  /** `extract_leaf_nodes`: walks the value recursively, merging each member's or
      element's leaves into a local map. */
  method ExtractLeafNodes(data: Json, parentKey: string) returns (leaves: map<string, Cell>)
    ensures leaves == Leaves(data, parentKey)
    decreases data
  {
    leaves := map[];
    match data {
      case Dict(ms) =>
        var i := 0;
        while i < |ms|
          invariant 0 <= i <= |ms|
          invariant leaves == MembersLeaves(ms[..i], parentKey)
        {
          assert ms[i] in ms;
          var sub := ExtractLeafNodes(ms[i].value, FullKey(parentKey, ms[i].key));
          assert ms[..i + 1][..i] == ms[..i];
          leaves := leaves + sub;
          i := i + 1;
        }
        assert ms[..|ms|] == ms;
      case List(items) =>
        var i := 0;
        while i < |items|
          invariant 0 <= i <= |items|
          invariant leaves == ItemsLeaves(items[..i], parentKey)
        {
          assert items[i] in items;
          var sub := ExtractLeafNodes(items[i], IndexKey(parentKey, i + 1));
          assert items[..i + 1][..i] == items[..i];
          leaves := leaves + sub;
          i := i + 1;
        }
        assert items[..|items|] == items;
      case Leaf(v) =>
        leaves := leaves[parentKey := v];
    }
  }

  // ---------------------------------------------------------------- Where each key comes from

  /** Member `j` is the last member that produces key `k`. */
  predicate IsLastMember(ms: seq<Member>, p: string, j: int, k: string)
  {
    0 <= j < |ms| && k in MemberLeaves(ms, p, j) && forall j' :: j < j' < |ms| ==> k !in MemberLeaves(ms, p, j')
  }

  /** Element `j` is the last element that produces key `k`. */
  predicate IsLastItem(items: seq<Json>, p: string, j: int, k: string)
  {
    0 <= j < |items| && k in ItemLeaves(items, p, j) && forall j' :: j < j' < |items| ==> k !in ItemLeaves(items, p, j')
  }

  /** A key of the members' map comes from the last member that produces it, and
      carries that member's value. */
  lemma {:induction false} MemberSource(ms: seq<Member>, p: string, k: string)
    requires k in MembersLeaves(ms, p)
    ensures exists j :: IsLastMember(ms, p, j, k) && MembersLeaves(ms, p)[k] == MemberLeaves(ms, p, j)[k]
  {
    var n := |ms| - 1;
    if k in MemberLeaves(ms, p, n) {
      assert IsLastMember(ms, p, n, k);
    } else {
      MemberSource(ms[..n], p, k);
      var j :| IsLastMember(ms[..n], p, j, k) && MembersLeaves(ms[..n], p)[k] == MemberLeaves(ms[..n], p, j)[k];
      forall j' | j < j' < |ms| ensures k !in MemberLeaves(ms, p, j') {
        if j' < n {
          assert MemberLeaves(ms[..n], p, j') == MemberLeaves(ms, p, j') by { assert ms[..n][j'] == ms[j']; }
        } else {
          assert j' == n;
        }
      }
      assert MemberLeaves(ms[..n], p, j) == MemberLeaves(ms, p, j) by { assert ms[..n][j] == ms[j]; }
    }
  }

  lemma MembersSource(ms: seq<Member>, p: string)
    ensures forall k :: k in MembersLeaves(ms, p) ==>
              exists j :: IsLastMember(ms, p, j, k) && MembersLeaves(ms, p)[k] == MemberLeaves(ms, p, j)[k]
  {
    forall k | k in MembersLeaves(ms, p)
      ensures exists j :: IsLastMember(ms, p, j, k) && MembersLeaves(ms, p)[k] == MemberLeaves(ms, p, j)[k]
    {
      MemberSource(ms, p, k);
    }
  }

  /** Every key a member produces is in the members' map, with the value of the
      last member that produces it: later writes win. */
  lemma {:induction false} MembersLastWins(ms: seq<Member>, p: string, j: nat, k: string)
    requires IsLastMember(ms, p, j, k)
    ensures k in MembersLeaves(ms, p) && MembersLeaves(ms, p)[k] == MemberLeaves(ms, p, j)[k]
  {
    var n := |ms| - 1;
    assert MembersLeaves(ms, p) == MembersLeaves(ms[..n], p) + MemberLeaves(ms, p, n);
    if j < n {
      assert IsLastMember(ms[..n], p, j, k) by {
        forall j' | j < j' < n ensures k !in MemberLeaves(ms[..n], p, j') {
          assert MemberLeaves(ms[..n], p, j') == MemberLeaves(ms, p, j') by { assert ms[..n][j'] == ms[j']; }
        }
        assert MemberLeaves(ms[..n], p, j) == MemberLeaves(ms, p, j) by { assert ms[..n][j] == ms[j]; }
      }
      MembersLastWins(ms[..n], p, j, k);
      assert MemberLeaves(ms[..n], p, j) == MemberLeaves(ms, p, j) by { assert ms[..n][j] == ms[j]; }
      assert k !in MemberLeaves(ms, p, n);
    } else {
      assert j == n;
    }
  }

  /** A key of the elements' map comes from the last element that produces it,
      and carries that element's value. */
  lemma {:induction false} ItemSource(items: seq<Json>, p: string, k: string)
    requires k in ItemsLeaves(items, p)
    ensures exists j :: IsLastItem(items, p, j, k) && ItemsLeaves(items, p)[k] == ItemLeaves(items, p, j)[k]
  {
    var n := |items| - 1;
    assert ItemsLeaves(items, p) == ItemsLeaves(items[..n], p) + ItemLeaves(items, p, n);
    if k in ItemLeaves(items, p, n) {
      assert IsLastItem(items, p, n, k);
    } else {
      ItemSource(items[..n], p, k);
      var j :| IsLastItem(items[..n], p, j, k) && ItemsLeaves(items[..n], p)[k] == ItemLeaves(items[..n], p, j)[k];
      forall j' | j < j' < |items| ensures k !in ItemLeaves(items, p, j') {
        if j' < n {
          assert k !in ItemLeaves(items[..n], p, j');
          assert ItemLeaves(items[..n], p, j') == ItemLeaves(items, p, j') by { assert items[..n][j'] == items[j']; }
        } else {
          assert j' == n;
        }
      }
      assert ItemLeaves(items[..n], p, j) == ItemLeaves(items, p, j) by { assert items[..n][j] == items[j]; }
    }
  }

  lemma ItemsSource(items: seq<Json>, p: string)
    ensures forall k :: k in ItemsLeaves(items, p) ==>
              exists j :: IsLastItem(items, p, j, k) && ItemsLeaves(items, p)[k] == ItemLeaves(items, p, j)[k]
  {
    forall k | k in ItemsLeaves(items, p)
      ensures exists j :: IsLastItem(items, p, j, k) && ItemsLeaves(items, p)[k] == ItemLeaves(items, p, j)[k]
    {
      ItemSource(items, p, k);
    }
  }

  /** Every key an element produces is in the elements' map, with the value of
      the last element that produces it. */
  lemma {:induction false} ItemsLastWins(items: seq<Json>, p: string, j: nat, k: string)
    requires IsLastItem(items, p, j, k)
    ensures k in ItemsLeaves(items, p) && ItemsLeaves(items, p)[k] == ItemLeaves(items, p, j)[k]
  {
    var n := |items| - 1;
    assert ItemsLeaves(items, p) == ItemsLeaves(items[..n], p) + ItemLeaves(items, p, n);
    if j < n {
      assert IsLastItem(items[..n], p, j, k) by {
        forall j' | j < j' < n ensures k !in ItemLeaves(items[..n], p, j') {
          assert ItemLeaves(items[..n], p, j') == ItemLeaves(items, p, j') by { assert items[..n][j'] == items[j']; }
        }
        assert ItemLeaves(items[..n], p, j) == ItemLeaves(items, p, j) by { assert items[..n][j] == items[j]; }
      }
      ItemsLastWins(items[..n], p, j, k);
      assert ItemLeaves(items[..n], p, j) == ItemLeaves(items, p, j) by { assert items[..n][j] == items[j]; }
      assert k !in ItemLeaves(items, p, n);
    } else {
      assert j == n;
    }
  }

  // ---------------------------------------------------------------- Properties of the flattening

  /** A scalar occupies exactly its parent's key; below a non-empty parent, every
      key of a dictionary or list starts with `parent.`. */
  lemma {:induction false} LeavesUnderParent(d: Json, p: string)
    ensures d.Leaf? ==> Leaves(d, p).Keys == {p}
    ensures forall k :: k in Leaves(d, p) ==> (d.Leaf? && k == p) || (p != "" ==> p + "." <= k)
    decreases d
  {
    match d {
      case Leaf(_) =>
      case Dict(ms) =>
        MembersSource(ms, p);
        forall j | 0 <= j < |ms|
          ensures forall k :: k in MemberLeaves(ms, p, j) ==> (p != "" ==> p + "." <= k)
        {
          assert ms[j] in ms;
          var q := FullKey(p, ms[j].key);
          LeavesUnderParent(ms[j].value, q);
          if p != "" {
            assert p + "." <= q;
          }
        }
      case List(items) =>
        ItemsSource(items, p);
        forall j | 0 <= j < |items|
          ensures forall k :: k in ItemLeaves(items, p, j) ==> (p != "" ==> p + "." <= k)
        {
          assert items[j] in items;
          var q := IndexKey(p, j + 1);
          LeavesUnderParent(items[j], q);
          assert p + "." <= q;
        }
    }
  }

  /** Every key lies under its parent. */
  lemma LeavesAreUnder(d: Json, p: string)
    ensures forall k :: k in Leaves(d, p) ==> Under(k, p)
  {
    LeavesUnderParent(d, p);
  }

  /** At the top level a dictionary's keys start with one of its own member keys
      (no leading dot), and each carries the value of the last member producing it. */
  lemma TopLevelDictKey(ms: seq<Member>, k: string)
    requires k in Leaves(Dict(ms), "")
    ensures exists j :: IsLastMember(ms, "", j, k) && Under(k, ms[j].key)
                        && Leaves(Dict(ms), "")[k] == MemberLeaves(ms, "", j)[k]
  {
    MemberSource(ms, "", k);
    var j :| IsLastMember(ms, "", j, k) && MembersLeaves(ms, "")[k] == MemberLeaves(ms, "", j)[k];
    LeavesAreUnder(ms[j].value, ms[j].key);
  }

  /** The `n`-th element of a list (counted from 1) is flattened under `parent.n`. */
  lemma ListElementsNumberedFromOne(items: seq<Json>, p: string)
    ensures forall k :: k in Leaves(List(items), p) ==>
              exists j :: 0 <= j < |items| && Under(k, p + "." + NatToString(j + 1))
                          && k in Leaves(items[j], IndexKey(p, j + 1))
  {
    ItemsSource(items, p);
    forall j | 0 <= j < |items|
      ensures forall k :: k in ItemLeaves(items, p, j) ==> Under(k, p + "." + NatToString(j + 1))
    {
      LeavesAreUnder(items[j], IndexKey(p, j + 1));
    }
  }

  /** Every value of the flat map is one of the scalars of the input. */
  lemma {:induction false} ValuesAreLeaves(d: Json, p: string)
    ensures forall k :: k in Leaves(d, p) ==> Leaves(d, p)[k] in LeafValues(d)
    decreases d
  {
    match d {
      case Leaf(_) =>
      case Dict(ms) =>
        MembersSource(ms, p);
        forall j | 0 <= j < |ms|
          ensures forall k :: k in MemberLeaves(ms, p, j) ==> MemberLeaves(ms, p, j)[k] in LeafValues(d)
        {
          assert ms[j] in ms;
          ValuesAreLeaves(ms[j].value, FullKey(p, ms[j].key));
        }
      case List(items) =>
        ItemsSource(items, p);
        forall j | 0 <= j < |items|
          ensures forall k :: k in ItemLeaves(items, p, j) ==> ItemLeaves(items, p, j)[k] in LeafValues(d)
        {
          assert items[j] in items;
          ValuesAreLeaves(items[j], IndexKey(p, j + 1));
        }
    }
  }

  /** The flat map is empty exactly when the input holds no scalar, so an empty
      dictionary or list contributes nothing. */
  lemma {:induction false} EmptyIffNoLeaf(d: Json, p: string)
    ensures Leaves(d, p) == map[] <==> !HasLeaf(d)
    decreases d
  {
    match d {
      case Leaf(_) =>
        assert p in Leaves(d, p);
      case Dict(ms) =>
        MembersSource(ms, p);
        if HasLeaf(d) {
          var j :| 0 <= j < |ms| && HasLeaf(ms[j].value);
          assert ms[j] in ms;
          EmptyIffNoLeaf(ms[j].value, FullKey(p, ms[j].key));
          var k :| k in MemberLeaves(ms, p, j);
          LastProducer(ms, p, j, k);
        } else {
          forall j | 0 <= j < |ms| ensures MemberLeaves(ms, p, j) == map[] {
            assert ms[j] in ms;
            EmptyIffNoLeaf(ms[j].value, FullKey(p, ms[j].key));
          }
        }
      case List(items) =>
        ItemsSource(items, p);
        if HasLeaf(d) {
          var j :| 0 <= j < |items| && HasLeaf(items[j]);
          assert items[j] in items;
          EmptyIffNoLeaf(items[j], IndexKey(p, j + 1));
          var k :| k in ItemLeaves(items, p, j);
          LastItemProducer(items, p, j, k);
        } else {
          forall j | 0 <= j < |items| ensures ItemLeaves(items, p, j) == map[] {
            assert items[j] in items;
            EmptyIffNoLeaf(items[j], IndexKey(p, j + 1));
          }
        }
    }
  }

  /** A key some member produces is in the members' map. */
  lemma {:induction false} LastProducer(ms: seq<Member>, p: string, j: nat, k: string)
    requires j < |ms| && k in MemberLeaves(ms, p, j)
    ensures k in MembersLeaves(ms, p)
    decreases |ms| - j
  {
    if exists j' :: j < j' < |ms| && k in MemberLeaves(ms, p, j') {
      var j' :| j < j' < |ms| && k in MemberLeaves(ms, p, j');
      LastProducer(ms, p, j', k);
    } else {
      MembersLastWins(ms, p, j, k);
    }
  }

  /** A key some element produces is in the elements' map. */
  lemma {:induction false} LastItemProducer(items: seq<Json>, p: string, j: nat, k: string)
    requires j < |items| && k in ItemLeaves(items, p, j)
    ensures k in ItemsLeaves(items, p)
    decreases |items| - j
  {
    if exists j' :: j < j' < |items| && k in ItemLeaves(items, p, j') {
      var j' :| j < j' < |items| && k in ItemLeaves(items, p, j');
      LastItemProducer(items, p, j', k);
    } else {
      ItemsLastWins(items, p, j, k);
    }
  }

  /** Two paths that spell the same string: the later one wins. */
  lemma CollidingPathsExample()
    ensures Leaves(Dict([Member("a.b", Leaf(Some(Num(1)))), Member("a", Dict([Member("b", Leaf(Some(Num(2))))]))]), "")
            == map["a.b" := Some(Num(2))]
  {
    var first := Member("a.b", Leaf(Some(Num(1))));
    var second := Member("a", Dict([Member("b", Leaf(Some(Num(2))))]));
    assert [first, second][..1] == [first];
    assert [first][..0] == [] && [Member("b", Leaf(Some(Num(2))))][..0] == [];
    assert FullKey("a", "b") == "a.b";
    assert MembersLeaves([first], "") == map["a.b" := Some(Num(1))];
    assert Leaves(second.value, "a") == map["a.b" := Some(Num(2))];
  }

  /** A list at the top level is numbered with a leading dot. */
  lemma TopLevelListExample(v: Cell, w: Cell)
    ensures Leaves(List([Leaf(v), Leaf(w)]), "") == map[".1" := v, ".2" := w]
  {
    assert NatToString(1) == "1" && NatToString(2) == "2";
    assert [Leaf(v), Leaf(w)][..1] == [Leaf(v)] && [Leaf(v)][..0] == [];
    assert IndexKey("", 1) == ".1" && IndexKey("", 2) == ".2";
    assert ItemsLeaves([Leaf(v)], "") == map[".1" := v];
    assert ItemsLeaves([Leaf(v), Leaf(w)], "") == map[".1" := v] + map[".2" := w];
  }

  // ---------------------------------------------------------------- Dropping the identifier keys

  /** The keys popped from each record's attributes before flattening. */
  const RemoveKeys: seq<string> := ["bic", "mic", "ocid", "qcc", "spglobal", "conformityFlag"]

  const AttributesKey := "attributes"

  function KeysOf(ms: seq<Member>): set<string>
  {
    set m | m in ms :: m.key
  }

  /** The members other than those named `key`, in their order. */
  function Without(ms: seq<Member>, key: string): (r: seq<Member>)
    ensures KeysOf(r) == KeysOf(ms) - {key}
    ensures forall m :: m in r <==> m in ms && m.key != key
  {
    if ms == [] then []
    else
      var rest := Without(ms[1..], key);
      assert forall m :: m in ms <==> m == ms[0] || m in ms[1..];
      if ms[0].key == key then rest else [ms[0]] + rest
  }

  /** The value of the last member named `key`. */
  function LastValue(ms: seq<Member>, key: string): (v: Json)
    requires key in KeysOf(ms)
    ensures Member(key, v) in ms
  {
    var n := |ms| - 1;
    if ms[n].key == key then ms[n].value
    else
      assert key in KeysOf(ms[..n]) by {
        var m :| m in ms && m.key == key;
        assert m in ms[..n] by { assert ms == ms[..n] + [ms[n]]; }
      }
      var v := LastValue(ms[..n], key);
      assert Member(key, v) in ms[..n];
      v
  }

  /** `d[key]` on a decoded object. */
  function Get(d: Json, key: string): (r: Result<Json>)
    ensures r.Err? <==> !d.Dict? || key !in KeysOf(d.members)
    ensures r.Err? ==> r.error == if d.Dict? then MissingKey(key) else NotADict
    ensures r.Ok? ==> Member(key, r.value) in d.members
  {
    if !d.Dict? then Err(NotADict)
    else if key !in KeysOf(d.members) then Err(MissingKey(key))
    else Ok(LastValue(d.members, key))
  }

  /** The members left after popping `keys` in order, with the first key found
      missing; the pops before it have already happened. */
  function PopKeys(ms: seq<Member>, keys: seq<string>): (r: (seq<Member>, Outcome))
    ensures forall m :: m in r.0 ==> m in ms
    ensures forall m :: m in ms && m.key !in keys ==> m in r.0
    ensures r.1.Fail? ==> r.1.error.MissingKey? && r.1.error.key in keys && r.1.error.key !in KeysOf(r.0)
    decreases |keys|
  {
    if keys == [] then (ms, Pass)
    else if keys[0] !in KeysOf(ms) then (ms, Fail(MissingKey(keys[0])))
    else
      assert forall key :: key in keys[1..] ==> key in keys;
      PopKeys(Without(ms, keys[0]), keys[1..])
  }

  /** Popping distinct keys succeeds exactly when every key is present, and then
      leaves exactly the members whose key is not among them. */
  lemma {:induction false} PopKeysSucceeds(ms: seq<Member>, keys: seq<string>)
    requires forall a, b :: 0 <= a < b < |keys| ==> keys[a] != keys[b]
    ensures PopKeys(ms, keys).1.Pass? <==> forall key :: key in keys ==> key in KeysOf(ms)
    ensures PopKeys(ms, keys).1.Fail? ==> exists key :: key in keys && key !in KeysOf(ms)
                                                        && PopKeys(ms, keys).1 == Fail(MissingKey(key))
    ensures PopKeys(ms, keys).1.Pass? ==>
              forall m :: m in PopKeys(ms, keys).0 <==> m in ms && m.key !in keys
    ensures PopKeys(ms, keys).1.Pass? ==> KeysOf(PopKeys(ms, keys).0) == KeysOf(ms) - set k | k in keys
    decreases |keys|
  {
    if keys != [] && keys[0] in KeysOf(ms) {
      var rest := keys[1..];
      assert forall key :: key in keys <==> key == keys[0] || key in rest;
      assert keys[0] !in rest by {
        forall b | 0 <= b < |rest| ensures rest[b] != keys[0] { assert rest[b] == keys[b + 1]; }
      }
      assert forall a, b :: 0 <= a < b < |rest| ==> rest[a] != rest[b] by {
        forall a, b | 0 <= a < b < |rest| ensures rest[a] != rest[b] {
          assert rest[a] == keys[a + 1] && rest[b] == keys[b + 1];
        }
      }
      PopKeysSucceeds(Without(ms, keys[0]), rest);
    }
  }

  /** A decoded object whose members are popped in place. */
  class JsonObject {
    var members: seq<Member>

    constructor (members: seq<Member>)
      ensures this.members == members
    {
      this.members := members;
    }

    /** `dict.pop(key)` without a default: removes the key and returns its value,
        and raises when the key is absent. */
    method Pop(key: string) returns (r: Result<Json>)
      modifies this
      ensures r.Ok? <==> key in KeysOf(old(members))
      ensures r.Ok? ==> members == Without(old(members), key) && r.value == LastValue(old(members), key)
      ensures r.Err? ==> r.error == MissingKey(key) && members == old(members)
    {
      if key !in KeysOf(members) {
        return Err(MissingKey(key));
      }
      r := Ok(LastValue(members, key));
      members := Without(members, key);
    }
  }

  /** The flat record of one item as the per-item transform produces it. */
  function FlattenedItem(item: Json): (r: Result<map<string, Cell>>)
    ensures r.Ok? ==> Get(item, AttributesKey).Ok? && Get(item, AttributesKey).value.Dict?
    ensures r.Err? ==> || r.error == NotADict || r.error == MissingKey(AttributesKey)
                       || exists key :: key in RemoveKeys && r.error == MissingKey(key)
  {
    var attributes := Get(item, AttributesKey);
    if attributes.Err? then Err(attributes.error)
    else if !attributes.value.Dict? then Err(NotADict)
    else
      var popped := PopKeys(attributes.value.members, RemoveKeys);
      if popped.1.Fail? then Err(popped.1.error)
      else Ok(Leaves(Dict(popped.0), ""))
  }

  /** The per-item transform: takes the item's attributes, pops the six removed
      keys from them in place, then flattens what is left. */
  method FlattenItem(item: Json) returns (r: Result<map<string, Cell>>)
    ensures r == FlattenedItem(item)
  {
    var attributes := Get(item, AttributesKey);
    if attributes.Err? {
      return Err(attributes.error);
    }
    if !attributes.value.Dict? {
      return Err(NotADict);
    }
    var obj := new JsonObject(attributes.value.members);
    var i := 0;
    while i < |RemoveKeys|
      invariant 0 <= i <= |RemoveKeys|
      invariant PopKeys(obj.members, RemoveKeys[i..]) == PopKeys(attributes.value.members, RemoveKeys)
    {
      var popped := obj.Pop(RemoveKeys[i]);
      if popped.Err? {
        return Err(popped.error);
      }
      assert RemoveKeys[i..][1..] == RemoveKeys[i + 1..];
      i := i + 1;
    }
    var leaves := ExtractLeafNodes(Dict(obj.members), "");
    return Ok(leaves);
  }

  /** The transform fails exactly when the item has no attributes object or one
      of the six keys is missing from it, and the missing key is reported. */
  lemma FlattenFailsOnMissingKey(item: Json)
    ensures FlattenedItem(item).Ok? <==>
              && Get(item, AttributesKey).Ok? && Get(item, AttributesKey).value.Dict?
              && forall key :: key in RemoveKeys ==> key in KeysOf(Get(item, AttributesKey).value.members)
    ensures Get(item, AttributesKey).Ok? && Get(item, AttributesKey).value.Dict? && FlattenedItem(item).Err? ==>
              exists key :: key in RemoveKeys && key !in KeysOf(Get(item, AttributesKey).value.members)
                            && FlattenedItem(item) == Err(MissingKey(key))
  {
    if Get(item, AttributesKey).Ok? && Get(item, AttributesKey).value.Dict? {
      PopKeysSucceeds(Get(item, AttributesKey).value.members, RemoveKeys);
    }
  }

  /** The first dot-separated segment of a key. */
  function FirstSegment(k: string): (s: string)
    ensures s <= k && '.' !in s
  {
    if k == [] || k[0] == '.' then [] else [k[0]] + FirstSegment(k[1..])
  }

  lemma {:induction false} FirstSegmentOfUnder(k: string, a: string)
    requires a != "" && '.' !in a && Under(k, a)
    ensures FirstSegment(k) == a
  {
    if |a| > 1 {
      assert a[1..] != "" && '.' !in a[1..];
      assert k[1..] == a[1..] || a[1..] + "." <= k[1..];
      FirstSegmentOfUnder(k[1..], a[1..]);
    } else if k != a {
      assert k[1] == '.';
      assert FirstSegment(k[1..]) == [];
    }
  }

  /** When the attributes' own keys are non-empty and contain no dot, no key of
      the flat record starts with a removed key as its first segment. */
  lemma RemovedKeysAreGone(item: Json)
    requires FlattenedItem(item).Ok?
    requires forall m :: m in Get(item, AttributesKey).value.members ==> m.key != "" && '.' !in m.key
    ensures forall k :: k in FlattenedItem(item).value ==> FirstSegment(k) !in RemoveKeys
  {
    RemoveKeysDistinct();
    PoppedKeysAreGone(Get(item, AttributesKey).value.members, RemoveKeys);
  }

  lemma RemoveKeysDistinct()
    ensures forall a, b :: 0 <= a < b < |RemoveKeys| ==> RemoveKeys[a] != RemoveKeys[b]
  {
  }

  /** After popping distinct `keys` from members whose keys are non-empty and
      dot-free, no flattened key has a popped key as its first segment. */
  lemma PoppedKeysAreGone(ms: seq<Member>, keys: seq<string>)
    requires forall a, b :: 0 <= a < b < |keys| ==> keys[a] != keys[b]
    requires PopKeys(ms, keys).1.Pass?
    requires forall m :: m in ms ==> m.key != "" && '.' !in m.key
    ensures forall k :: k in Leaves(Dict(PopKeys(ms, keys).0), "") ==> FirstSegment(k) !in keys
  {
    PopKeysSucceeds(ms, keys);
    var rest := PopKeys(ms, keys).0;
    forall k | k in Leaves(Dict(rest), "") ensures FirstSegment(k) !in keys {
      TopLevelDictKey(rest, k);
      var j :| IsLastMember(rest, "", j, k) && Under(k, rest[j].key);
      assert rest[j] in rest;
      FirstSegmentOfUnder(k, rest[j].key);
    }
  }

  /** Without the dot-free precondition a removed key can survive as a first
      segment: popping `bic` leaves a member literally named `bic.x`. */
  lemma PoppedKeysNeedDotFreeKeys()
    ensures var ms := [Member("bic", Leaf(None)), Member("bic.x", Leaf(None))];
            && PopKeys(ms, ["bic"]).1 == Pass
            && "bic.x" in Leaves(Dict(PopKeys(ms, ["bic"]).0), "")
            && FirstSegment("bic.x") == "bic"
  {
    var ms := [Member("bic", Leaf(None)), Member("bic.x", Leaf(None))];
    assert ms[0] in ms;
    assert ms[1] in ms;
    assert "bic" != "bic.x";
    var rest := PopKeys(ms, ["bic"]).0;
    assert Member("bic.x", Leaf(None)) in rest;
    assert rest == [Member("bic.x", Leaf(None))];
    assert "bic.x" in MemberLeaves(rest, "", 0);
    assert FirstSegment("bic.x") == "bic";
  }
}
