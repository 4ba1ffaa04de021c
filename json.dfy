/**
 * JavaScript values as the front matter, the schema.org objects and `JSON.parse` produce
 * them. An object is its list of own properties in insertion order, which is the order
 * `Object.entries` and the spread operator visit them in.
 */
module Json {
  import opened Strings

  datatype Json =
    | JUndefined
    | JNull
    | JBool(b: bool)
    /** Numbers are modelled as integers. */
    | JNum(n: int)
    | JStr(s: string)
    | JArr(items: seq<Json>)
    | JObj(fields: seq<Field>)

  datatype Field = Field(key: string, value: Json)

  /** JavaScript truthiness: `undefined`, `null`, `false`, `0` and `""` are falsy. */
  predicate Truthy(v: Json) {
    match v
    case JUndefined => false
    case JNull => false
    case JBool(b) => b
    case JNum(n) => n != 0
    case JStr(s) => s != ""
    case JArr(_) => true
    case JObj(_) => true
  }

  /** `a || b`. */
  function Or(a: Json, b: Json): (r: Json)
    ensures Truthy(a) ==> r == a
    ensures !Truthy(a) ==> r == b
  {
    if Truthy(a) then a else b
  }

  predicate HasKey(fs: seq<Field>, k: string) {
    |fs| > 0 && (fs[0].key == k || HasKey(fs[1..], k))
  }

  /** Property keys are unique, as in every JavaScript object. */
  predicate UniqueKeys(fs: seq<Field>) {
    |fs| == 0 || (!HasKey(fs[1..], fs[0].key) && UniqueKeys(fs[1..]))
  }

  /** `obj[k]`: the property's value, `undefined` when there is none. */
  function Get(fs: seq<Field>, k: string): (r: Json)
    ensures !HasKey(fs, k) ==> r == JUndefined
  {
    if |fs| == 0 then JUndefined
    else if fs[0].key == k then fs[0].value
    else Get(fs[1..], k)
  }

  /** `obj[k] = v`: replaces an existing property in place, or appends a new one. */
  function Set(fs: seq<Field>, k: string, v: Json): (r: seq<Field>)
    ensures Get(r, k) == v
    ensures forall k' :: k' != k ==> Get(r, k') == Get(fs, k')
    ensures forall k' :: HasKey(r, k') <==> HasKey(fs, k') || k' == k
    ensures UniqueKeys(fs) ==> UniqueKeys(r)
    ensures HasKey(fs, k) ==> |r| == |fs|
    ensures |r| <= |fs| + 1
  {
    if |fs| == 0 then [Field(k, v)]
    else if fs[0].key == k then [Field(k, v)] + fs[1..]
    else
      var r := [fs[0]] + Set(fs[1..], k, v);
      assert r[1..] == Set(fs[1..], k, v);
      r
  }

  /** `{...target, ...source}` for object `source`: each property of `source` assigned in turn. */
  function Spread(target: seq<Field>, source: seq<Field>): (r: seq<Field>)
    ensures UniqueKeys(target) ==> UniqueKeys(r)
    ensures forall k' :: HasKey(r, k') <==> HasKey(target, k') || HasKey(source, k')
    decreases |source|
  {
    if |source| == 0 then target
    else
      Spread(Set(target, source[0].key, source[0].value), source[1..])
  }

  /** After a spread, a key of the source has the source's value; every other key keeps the target's. */
  lemma {:induction false} SpreadGet(target: seq<Field>, source: seq<Field>, k: string)
    requires UniqueKeys(source)
    ensures Get(Spread(target, source), k) == if HasKey(source, k) then Get(source, k) else Get(target, k)
    decreases |source|
  {
    if |source| > 0 {
      var t' := Set(target, source[0].key, source[0].value);
      SpreadGet(t', source[1..], k);
    }
  }

  /** Spreading into a target with none of the source's keys just appends the source. */
  lemma {:induction false} SpreadFresh(target: seq<Field>, source: seq<Field>)
    requires UniqueKeys(source)
    requires forall i :: 0 <= i < |source| ==> !HasKey(target, source[i].key)
    ensures Spread(target, source) == target + source
    decreases |source|
  {
    if |source| > 0 {
      SetFresh(target, source[0].key, source[0].value);
      var t' := target + [source[0]];
      FreshAfterFirst(target, source);
      SpreadFresh(t', source[1..]);
      AppendFirst(target, source);
    }
  }

  lemma AppendFirst(target: seq<Field>, source: seq<Field>)
    requires |source| > 0
    ensures target + [source[0]] + source[1..] == target + source
  {
    assert source == [source[0]] + source[1..];
  }

  /** Once the first property is appended, the rest of the source is still fresh. */
  lemma FreshAfterFirst(target: seq<Field>, source: seq<Field>)
    requires |source| > 0 && UniqueKeys(source)
    requires forall i :: 0 <= i < |source| ==> !HasKey(target, source[i].key)
    ensures UniqueKeys(source[1..])
    ensures forall i :: 0 <= i < |source[1..]| ==> !HasKey(target + [source[0]], source[1..][i].key)
  {
    forall i | 0 <= i < |source[1..]| ensures !HasKey(target + [source[0]], source[1..][i].key) {
      assert source[1..][i] == source[i + 1];
      HasKeyAppend(target, source[0], source[i + 1].key);
      if source[i + 1].key == source[0].key {
        HasKeyAt(source[1..], i);
      }
    }
  }

  lemma {:induction false} SetFresh(fs: seq<Field>, k: string, v: Json)
    requires !HasKey(fs, k)
    ensures Set(fs, k, v) == fs + [Field(k, v)]
  {
    if |fs| > 0 {
      SetFresh(fs[1..], k, v);
      assert fs == [fs[0]] + fs[1..];
    }
  }

  lemma {:induction false} HasKeyAt(fs: seq<Field>, i: nat)
    requires i < |fs|
    ensures HasKey(fs, fs[i].key)
  {
    if i > 0 {
      HasKeyAt(fs[1..], i - 1);
    }
  }

  lemma {:induction false} HasKeyAppend(fs: seq<Field>, f: Field, k: string)
    ensures HasKey(fs + [f], k) <==> HasKey(fs, k) || f.key == k
  {
    if |fs| > 0 {
      assert (fs + [f])[1..] == fs[1..] + [f];
      HasKeyAppend(fs[1..], f, k);
    }
  }

  /** `HasKey` is "some property has this key". */
  lemma {:induction false} HasKeyIff(fs: seq<Field>, k: string)
    ensures HasKey(fs, k) <==> exists i :: 0 <= i < |fs| && fs[i].key == k
  {
    if |fs| > 0 {
      HasKeyIff(fs[1..], k);
      if HasKey(fs[1..], k) {
        var i :| 0 <= i < |fs[1..]| && fs[1..][i].key == k;
        assert fs[i + 1].key == k;
      }
      if exists i :: 0 <= i < |fs| && fs[i].key == k {
        var i :| 0 <= i < |fs| && fs[i].key == k;
        if i > 0 {
          assert fs[1..][i - 1].key == k;
        }
      }
    }
  }

  /** `UniqueKeys` is "no two properties share a key". */
  lemma {:induction false} UniqueKeysIff(fs: seq<Field>)
    ensures UniqueKeys(fs) <==> forall i, j :: 0 <= i < j < |fs| ==> fs[i].key != fs[j].key
  {
    if |fs| > 0 {
      UniqueKeysIff(fs[1..]);
      HasKeyIff(fs[1..], fs[0].key);
      if forall i, j :: 0 <= i < j < |fs| ==> fs[i].key != fs[j].key {
        forall i, j | 0 <= i < j < |fs[1..]| ensures fs[1..][i].key != fs[1..][j].key {
          assert fs[1..][i] == fs[i + 1] && fs[1..][j] == fs[j + 1];
        }
        forall i | 0 <= i < |fs[1..]| ensures fs[1..][i].key != fs[0].key {
          assert fs[1..][i] == fs[i + 1];
        }
      }
      if UniqueKeys(fs) {
        forall i, j | 0 <= i < j < |fs| ensures fs[i].key != fs[j].key {
          assert fs[j] == fs[1..][j - 1];
          if i > 0 {
            assert fs[i] == fs[1..][i - 1];
          }
        }
      }
    }
  }

  /** A property appended under another key does not change a lookup. */
  lemma {:induction false} GetAppendOther(fs: seq<Field>, f: Field, k: string)
    requires f.key != k
    ensures Get(fs + [f], k) == Get(fs, k)
  {
    if |fs| > 0 {
      assert (fs + [f])[1..] == fs[1..] + [f];
      GetAppendOther(fs[1..], f, k);
    }
  }

  /** The object written out as `{ k: v, ...rest }` when `rest` lacks `k`: one property in front of the rest. */
  function Prepend(k: string, v: Json, rest: seq<Field>): seq<Field> {
    [Field(k, v)] + rest
  }

  /** A lookup sees the property in front first, and otherwise looks in the rest. */
  lemma PrependGet()
    ensures forall k, v, rest, key :: Get(Prepend(k, v, rest), key) == if k == key then v else Get(rest, key)
  {
    forall k, v, rest, key ensures Get(Prepend(k, v, rest), key) == if k == key then v else Get(rest, key) {
      assert Prepend(k, v, rest)[1..] == rest;
    }
  }

  /** `Get` finds the first property with the key. */
  lemma {:induction false} GetFirst(fs: seq<Field>, i: nat)
    requires i < |fs|
    requires forall j :: 0 <= j < i ==> fs[j].key != fs[i].key
    ensures Get(fs, fs[i].key) == fs[i].value
  {
    if i > 0 {
      forall j | 0 <= j < i - 1 ensures fs[1..][j].key != fs[1..][i - 1].key {
        assert fs[1..][j] == fs[j + 1];
      }
      GetFirst(fs[1..], i - 1);
    }
  }

  /** `Object.entries(obj)` of a value `typeof obj === 'object'` accepts: an array's are indexed. */
  function Entries(v: Json): (r: seq<Field>)
    ensures v.JObj? ==> r == v.fields
    ensures v.JArr? ==> (|r| == |v.items|
                         && forall i :: 0 <= i < |r| ==> r[i] == Field(NatToString(i), v.items[i]))
    ensures !v.JObj? && !v.JArr? ==> r == []
  {
    match v
    case JObj(fs) => fs
    case JArr(items) => seq(|items|, i requires 0 <= i < |items| => Field(NatToString(i), items[i]))
    case _ => []
  }

  /** `String(v)`: how JavaScript converts a value to a string. */
  function ToJsString(v: Json): string
    decreases Size(v), 0
  {
    match v
    case JUndefined => "undefined"
    case JNull => "null"
    case JBool(b) => if b then "true" else "false"
    case JNum(n) => IntToString(n)
    case JStr(s) => s
    case JArr(items) => JoinValues(items, ",")
    case JObj(_) => "[object Object]"
  }

  /** `items.join(sep)`: `undefined` and `null` elements contribute the empty string. */
  function JoinValues(items: seq<Json>, sep: string): string
    decreases ItemsSize(items), 1
  {
    if |items| == 0 then ""
    else
      var head := if items[0] == JUndefined || items[0] == JNull then "" else ToJsString(items[0]);
      if |items| == 1 then head else head + sep + JoinValues(items[1..], sep)
  }

  /** The strings held by a list of string values. */
  function Strs(items: seq<Json>): (r: seq<string>)
    requires forall i :: 0 <= i < |items| ==> items[i].JStr?
    ensures |r| == |items| && forall i :: 0 <= i < |r| ==> items[i] == JStr(r[i])
  {
    seq(|items|, i requires 0 <= i < |items| => items[i].s)
  }

  /** Joining string values is joining their strings. */
  lemma {:induction false} JoinValuesOfStrings(items: seq<Json>, sep: string)
    requires forall i :: 0 <= i < |items| ==> items[i].JStr?
    ensures JoinValues(items, sep) == Join(Strs(items), sep)
  {
    if |items| > 1 {
      JoinValuesOfStrings(items[1..], sep);
      assert Strs(items)[1..] == Strs(items[1..]);
    }
  }

  /** The number of constructors in a value, for termination of recursive conversions. */
  function Size(v: Json): (n: nat)
    ensures n >= 1
  {
    match v
    case JArr(items) => 1 + ItemsSize(items)
    case JObj(fs) => 1 + FieldsSize(fs)
    case _ => 1
  }

  function ItemsSize(items: seq<Json>): nat {
    if |items| == 0 then 0 else Size(items[0]) + ItemsSize(items[1..])
  }

  function FieldsSize(fs: seq<Field>): nat {
    if |fs| == 0 then 0 else Size(fs[0].value) + FieldsSize(fs[1..])
  }

  lemma {:induction false} ItemSmaller(items: seq<Json>, i: nat)
    requires i < |items|
    ensures Size(items[i]) <= ItemsSize(items)
    ensures ItemsSize(items[i + 1..]) < ItemsSize(items[i..])
  {
    if i > 0 {
      ItemSmaller(items[1..], i - 1);
      assert items[1..][i - 1..] == items[i..];
      assert items[1..][i..] == items[i + 1..];
    }
    assert items[i..][1..] == items[i + 1..];
  }

  lemma {:induction false} FieldSmaller(fs: seq<Field>, i: nat)
    requires i < |fs|
    ensures Size(fs[i].value) <= FieldsSize(fs)
    ensures FieldsSize(fs[i + 1..]) < FieldsSize(fs[i..])
  {
    if i > 0 {
      FieldSmaller(fs[1..], i - 1);
      assert fs[1..][i - 1..] == fs[i..];
      assert fs[1..][i..] == fs[i + 1..];
    }
    assert fs[i..][1..] == fs[i + 1..];
  }
}
