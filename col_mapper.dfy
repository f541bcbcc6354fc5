/** The column mapper (Commie/CSVColMapper.php): the positional indexes of a
    record, and a dictionary from header label to field offset in which a
    duplicate label is disambiguated by appending '2' until the key is free. */
module ColMapper {
  import opened Php

  /** A column reference: a positional index or a header label. */
  datatype Key = Index(i: int) | Label(s: string)

  /** What `mapLabel` appends on each collision: the value of a counter that
      starts at 2 and is never incremented, so the candidates are
      `a`, `a2`, `a22`, ... */
  const Suffix: string := "2"

  /** `n` copies of the suffix. */
  function Twos(n: nat): (r: string)
    ensures |r| == n
    ensures forall k :: 0 <= k < n ==> r[k] == '2'
  {
    if n == 0 then "" else Twos(n - 1) + Suffix
  }

  /** A label as it is compared and stored: trimmed when trimming is on. */
  function Normalize(name: string, trimAll: bool): string {
    if trimAll then Trim(name) else name
  }

  /** The keys of `labels` that are at least `n` characters long;
      the collision loop's termination measure. */
  function LongKeys(labels: map<string, int>, n: nat): set<string> {
    set k | k in labels && |k| >= n
  }

  lemma LongKeysShrink(labels: map<string, int>, name: string)
    requires name in labels
    ensures |LongKeys(labels, |name| + 1)| < |LongKeys(labels, |name|)|
  {
    var longer, long := LongKeys(labels, |name| + 1), LongKeys(labels, |name|);
    assert name in long && longer <= long - {name};
    SubsetSize(longer, long - {name});
  }

  lemma {:induction false} SubsetSize<T>(a: set<T>, b: set<T>)
    requires a <= b
    ensures |a| <= |b|
    decreases b
  {
    if a != {} {
      var x :| x in a;
      SubsetSize(a - {x}, b - {x});
    }
  }

  /** The key under which `mapLabel` registers `name`: the first of
      `name`, `name + "2"`, `name + "22"`, ... that is not yet a key. */
  function FreeKey(labels: map<string, int>, name: string): string
    decreases |LongKeys(labels, |name|)|
  {
    if name in labels then
      LongKeysShrink(labels, name);
      FreeKey(labels, name + Suffix)
    else name
  }

  /** The registered key is new, and it is the requested label followed by
      zero or more '2' characters. */
  lemma {:induction false} FreeKeyShape(labels: map<string, int>, name: string)
    ensures FreeKey(labels, name) !in labels
    ensures exists n: nat :: FreeKey(labels, name) == name + Twos(n)
    decreases |LongKeys(labels, |name|)|
  {
    if name in labels {
      LongKeysShrink(labels, name);
      FreeKeyShape(labels, name + Suffix);
      var n: nat :| FreeKey(labels, name + Suffix) == name + Suffix + Twos(n);
      TwosPrepend(n);
      assert name + Suffix + Twos(n) == name + Twos(n + 1);
    } else {
      assert name == name + Twos(0);
    }
  }

  lemma {:induction false} TwosPrepend(n: nat)
    ensures Suffix + Twos(n) == Twos(n + 1)
  {
    if n > 0 {
      TwosPrepend(n - 1);
    }
  }

  /** The first registrant of a label keeps the bare label. */
  lemma FreeKeyBare(labels: map<string, int>, name: string)
    requires name !in labels
    ensures FreeKey(labels, name) == name
  {
  }

  /** Registering a label adds exactly one fresh key and keeps every earlier entry. */
  lemma MapLabelGrows(labels: map<string, int>, name: string, mapping: int)
    ensures var m := labels[FreeKey(labels, name) := mapping];
      && |m| == |labels| + 1
      && m.Keys == labels.Keys + {FreeKey(labels, name)}
      && (forall l :: l in labels ==> m[l] == labels[l])
      && m[FreeKey(labels, name)] == mapping
  {
    FreeKeyShape(labels, name);
  }

  /** The label dictionary the constructor builds from a header row: every
      field, in order of appearance, registered with `mapLabel` under its offset. */
  function HeaderLabels(fields: seq<string>, trimAll: bool): map<string, int>
  {
    if fields == [] then map[]
    else
      var m := HeaderLabels(fields[..|fields| - 1], trimAll);
      m[FreeKey(m, Normalize(fields[|fields| - 1], trimAll)) := |fields| - 1]
  }

  /** The key registered for the field at position `p`: the free key for its
      label among the labels of the fields before it. */
  function KeyAt(fields: seq<string>, trimAll: bool, p: nat): string
    requires p < |fields|
  {
    FreeKey(HeaderLabels(fields[..p], trimAll), Normalize(fields[p], trimAll))
  }

  /** There is one label per header field, and the labels map the header's
      positions one-to-one onto 0..|fields|-1. */
  lemma {:induction false} HeaderLabelsBijective(fields: seq<string>, trimAll: bool)
    ensures var m := HeaderLabels(fields, trimAll);
      && |m| == |fields|
      && (forall l :: l in m ==> 0 <= m[l] < |fields|)
      && (forall l1, l2 :: l1 in m && l2 in m && m[l1] == m[l2] ==> l1 == l2)
  {
    if fields != [] {
      var init := fields[..|fields| - 1];
      HeaderLabelsBijective(init, trimAll);
      var m0 := HeaderLabels(init, trimAll);
      MapLabelGrows(m0, Normalize(fields[|fields| - 1], trimAll), |fields| - 1);
    }
  }

  /** Extending the header keeps every label registered for the earlier fields. */
  lemma {:induction false} HeaderLabelsPrefix(fields: seq<string>, trimAll: bool, p: nat)
    requires p <= |fields|
    ensures var m := HeaderLabels(fields, trimAll);
      var m0 := HeaderLabels(fields[..p], trimAll);
      forall l :: l in m0 ==> l in m && m[l] == m0[l]
    decreases |fields| - p
  {
    if p < |fields| {
      var init := fields[..|fields| - 1];
      assert init[..p] == fields[..p];
      HeaderLabelsPrefix(init, trimAll, p);
      MapLabelGrows(HeaderLabels(init, trimAll), Normalize(fields[|fields| - 1], trimAll), |fields| - 1);
    } else {
      assert fields[..p] == fields;
    }
  }

  /** Every position `p` of the header is the value of its own key `KeyAt(p)`,
      which is the (normalised) field followed by zero or more '2's, and which
      is the bare field whenever that label was still free. */
  lemma HeaderLabelAt(fields: seq<string>, trimAll: bool, p: nat)
    requires p < |fields|
    ensures var m := HeaderLabels(fields, trimAll);
      && KeyAt(fields, trimAll, p) in m
      && m[KeyAt(fields, trimAll, p)] == p
      && (exists n: nat :: KeyAt(fields, trimAll, p) == Normalize(fields[p], trimAll) + Twos(n))
      && (Normalize(fields[p], trimAll) !in HeaderLabels(fields[..p], trimAll) ==>
            KeyAt(fields, trimAll, p) == Normalize(fields[p], trimAll))
  {
    var pre := fields[..p + 1];
    assert pre[..p] == fields[..p];
    HeaderLabelsPrefix(fields, trimAll, p + 1);
    FreeKeyShape(HeaderLabels(fields[..p], trimAll), Normalize(fields[p], trimAll));
  }

  /** With trimming on, every registered label is a trimmed header field
      followed by zero or more '2's. */
  lemma {:induction false} HeaderLabelsTrimmed(fields: seq<string>, l: string)
    requires l in HeaderLabels(fields, true)
    ensures exists p, n: nat :: 0 <= p < |fields| && l == Trim(fields[p]) + Twos(n)
  {
    var init := fields[..|fields| - 1];
    var m0 := HeaderLabels(init, true);
    var last := Trim(fields[|fields| - 1]);
    FreeKeyShape(m0, last);
    if l in m0 {
      HeaderLabelsTrimmed(init, l);
      var p, n: nat :| 0 <= p < |init| && l == Trim(init[p]) + Twos(n);
      assert init[p] == fields[p];
    } else {
      assert l == FreeKey(m0, last);
    }
  }

  /** What the constructor makes of a first record: the record's positions as
      indexes and, with a header, its fields as labels. */
  ghost predicate BuiltFrom(m: CsvColMapper, fields: seq<string>, hasHeader: bool, trimAll: bool)
    reads m
  {
    && m.trimAll == trimAll
    && |m.indexes| == |fields|
    && (forall k :: 0 <= k < |m.indexes| ==> m.indexes[k] == k)
    && m.labels == if hasHeader then HeaderLabels(fields, trimAll) else map[]
  }

  /** The mapper of Commie/CSVColMapper.php. */
  class CsvColMapper {
    /** Models the static `CSVColMapper::$TRIM_ALL` flag as a per-mapper setting. */
    const trimAll: bool
    /** The keys of the first record, `array_keys($colHeaderData)`. */
    const indexes: seq<int>
    /** Registered label -> offset. */
    var labels: map<string, int>

    constructor (colHeaderData: seq<string>, hasHeader: bool, trimAll: bool)
      ensures this.trimAll == trimAll
      ensures |indexes| == |colHeaderData| && forall k :: 0 <= k < |indexes| ==> indexes[k] == k
      ensures labels == if hasHeader then HeaderLabels(colHeaderData, trimAll) else map[]
    {
      this.trimAll := trimAll;
      indexes := seq(|colHeaderData|, k => k);
      labels := map[];
      new;
      if hasHeader {
        var key := 0;
        while key < |colHeaderData|
          invariant 0 <= key <= |colHeaderData|
          invariant labels == HeaderLabels(colHeaderData[..key], trimAll)
        {
          assert colHeaderData[..key + 1][..key] == colHeaderData[..key];
          MapLabel(colHeaderData[key], key);
          key := key + 1;
        }
        assert colHeaderData[..key] == colHeaderData;
      }
    }

    /** The offset a column reference denotes: a registered label first, then
        a positional index, otherwise none. Never fails. */
    function Resolve(key: Key): (r: Option<int>)
      reads this
      ensures key.Label? && Normalize(key.s, trimAll) in labels ==> r == Some(labels[Normalize(key.s, trimAll)])
      ensures key.Label? && Normalize(key.s, trimAll) !in labels ==> r == None
      ensures key.Index? ==> (r.Some? <==> key.i in indexes) && (r.Some? ==> r.value == key.i)
      ensures r.Some? ==> r.value in labels.Values || r.value in indexes
    {
      if key.Label? && Normalize(key.s, trimAll) in labels then
        Some(labels[Normalize(key.s, trimAll)])
      else if key.Index? && key.i in indexes then
        Some(key.i)
      else
        None
    }

    /** Registers `name` for `mapping` under the first free key
        `name`, `name2`, `name22`, ... */
    method MapLabel(name: string, mapping: int)
      modifies this`labels
      ensures labels == old(labels)[FreeKey(old(labels), Normalize(name, trimAll)) := mapping]
    {
      var candidate := name;
      if trimAll {
        candidate := Trim(candidate);
      }
      while candidate in labels
        invariant labels == old(labels)
        invariant FreeKey(labels, candidate) == FreeKey(labels, Normalize(name, trimAll))
        decreases |LongKeys(labels, |candidate|)|
      {
        LongKeysShrink(labels, candidate);
        candidate := candidate + Suffix;
      }
      labels := labels[candidate := mapping];
    }
  }

  /** Without a header no name is registered, so only positional indexes resolve. */
  lemma ResolveWithoutHeader(m: CsvColMapper, key: Key)
    requires m.labels == map[]
    requires forall k :: 0 <= k < |m.indexes| ==> m.indexes[k] == k
    ensures m.Resolve(key).Some? <==> key.Index? && 0 <= key.i < |m.indexes|
    ensures m.Resolve(key).Some? ==> m.Resolve(key).value == key.i
  {
    if key.Index? && 0 <= key.i < |m.indexes| {
      assert m.indexes[key.i] == key.i;
    }
  }

  /** With trimming on, padding around a name does not change what it resolves to. */
  lemma ResolveIgnoresPadding(m: CsvColMapper, s: string)
    requires m.trimAll
    ensures m.Resolve(Label(s)) == m.Resolve(Label(Trim(s)))
  {
    TrimIdempotent(s);
  }
}
