/** The class histogram: heap objects aggregated per class and per class
    loader, and the two operations that combine two histograms, the
    difference against a baseline and the intersection with another
    histogram.  Both build a table keyed by loader name and then class
    name, updating its records in place, and then merge the table into a
    new histogram with freshly numbered negative ids. */
module Histograms {
  import opened Wrappers

  /** A class record: name, class id, object count, used (shallow) heap
      and retained heap.  A negative retained heap means "at least". */
  datatype ClassRecord = ClassRecord(name: string, classId: int, objects: int, usedHeap: int, retained: int)

  /** A class-loader record with the records of its classes. */
  datatype LoaderRecord =
    LoaderRecord(name: string, loaderId: int, classes: seq<ClassRecord>, objects: int, usedHeap: int, retained: int)

  /** A histogram; either record list may be null (`None`). */
  datatype Histogram = Histogram(
    name: string,
    classRecords: Option<seq<ClassRecord>>,
    loaderRecords: Option<seq<LoaderRecord>>,
    objects: int,
    usedHeap: int,
    retained: int,
    isDefault: bool)

  /** The first synthetic class id is one below this, the first synthetic
      loader id one below `LoaderIdBase`. */
  const ClassIdBase: int := -1000000000
  const LoaderIdBase: int := -2000000000

  /** The prefix the intersection puts before the class labels of the first
      histogram to keep them apart from the matched records. */
  const Tag: string := "Class$%"

  /** The two quantities the operations add up. */
  datatype Measure = Objects | UsedHeap

  function Value(r: ClassRecord, m: Measure): int {
    match m
    case Objects => r.objects
    case UsedHeap => r.usedHeap
  }

  // ---------------------------------------------------------------------
  // What the inputs hold
  // ---------------------------------------------------------------------

  /** The sum of `m` over the records whose name, after `prefix`, is `key`. */
  function KeySum(classes: seq<ClassRecord>, prefix: string, key: string, m: Measure): int
  {
    if classes == [] then 0
    else
      var last := classes[|classes| - 1];
      KeySum(classes[..|classes| - 1], prefix, key, m) + (if prefix + last.name == key then Value(last, m) else 0)
  }

  /** The sum of `m` over the class records labelled `prefix + key` under
      loader records labelled `l`. */
  function LoaderSum(loaders: seq<LoaderRecord>, l: string, prefix: string, key: string, m: Measure): int
  {
    if loaders == [] then 0
    else
      var last := loaders[|loaders| - 1];
      LoaderSum(loaders[..|loaders| - 1], l, prefix, key, m) + (if last.name == l then KeySum(last.classes, prefix, key, m) else 0)
  }

  /** Some record of `classes` has name `key` after `prefix`. */
  predicate KeyOccurs(classes: seq<ClassRecord>, prefix: string, key: string)
  {
    exists j :: 0 <= j < |classes| && prefix + classes[j].name == key
  }

  /** Some loader record labelled `l` has a class record labelled `key`
      after `prefix`. */
  predicate PairOccurs(loaders: seq<LoaderRecord>, l: string, prefix: string, key: string)
  {
    exists i :: 0 <= i < |loaders| && loaders[i].name == l && KeyOccurs(loaders[i].classes, prefix, key)
  }

  predicate NameOccurs(loaders: seq<LoaderRecord>, l: string)
  {
    exists i :: 0 <= i < |loaders| && loaders[i].name == l
  }

  // ---------------------------------------------------------------------
  // The working table
  // ---------------------------------------------------------------------

  /** Loader name to class key to record. */
  type Table = map<string, map<string, ClassRecord>>

  /** A table and the last class id handed out. */
  datatype Tally = Tally(table: Table, next: int)

  function Inner(t: Table, l: string): map<string, ClassRecord> {
    if l in t then t[l] else map[]
  }

  /** `m` of the record under `l` and `key`, zero when there is none. */
  function Count(t: Table, l: string, key: string, m: Measure): int {
    if l in t && key in t[l] then Value(t[l][key], m) else 0
  }

  /** Every record sits under its own name, has retained heap zero and an
      id in `[next, below)`. */
  predicate InRange(t: Table, next: int, below: int)
  {
    next <= below &&
    forall l, k :: l in t && k in t[l] ==>
      t[l][k].name == k && t[l][k].retained == 0 && next <= t[l][k].classId < below
  }

  /** No two records share an id. */
  predicate DistinctIds(t: Table)
  {
    forall l1, k1, l2, k2 ::
      l1 in t && k1 in t[l1] && l2 in t && k2 in t[l2] && t[l1][k1].classId == t[l2][k2].classId
      ==> l1 == l2 && k1 == k2
  }

  predicate Fresh(t: Table, next: int, below: int)
  {
    InRange(t, next, below) && DistinctIds(t)
  }

  /** Fetching the loader's map creates an empty one when it is missing. */
  function Touch(s: Tally, l: string): (r: Tally)
    ensures r.next == s.next && l in r.table
  {
    Tally(s.table[l := Inner(s.table, l)], s.next)
  }

  lemma TouchAt(s: Tally, l: string, l': string, k: string, m: Measure)
    ensures Count(Touch(s, l).table, l', k, m) == Count(s.table, l', k, m)
    ensures l' in Touch(s, l).table <==> l' in s.table || l' == l
    ensures l' in Touch(s, l).table && k in Touch(s, l).table[l'] <==> l' in s.table && k in s.table[l']
  {
  }

  lemma TouchFresh(s: Tally, l: string)
    requires Fresh(s.table, s.next, ClassIdBase)
    ensures Fresh(Touch(s, l).table, s.next, ClassIdBase)
  {
  }

  /** A new record under `l` and `key` with the next id, replacing any
      record there. */
  function Put(s: Tally, l: string, key: string, objects: int, usedHeap: int): (r: Tally)
    ensures r.next == s.next - 1
  {
    Tally(s.table[l := Inner(s.table, l)[key := ClassRecord(key, s.next - 1, objects, usedHeap, 0)]], s.next - 1)
  }

  lemma PutInRange(s: Tally, l: string, key: string, objects: int, usedHeap: int)
    requires InRange(s.table, s.next, ClassIdBase)
    ensures InRange(Put(s, l, key, objects, usedHeap).table, s.next - 1, ClassIdBase)
  {
    var t: Table := Put(s, l, key, objects, usedHeap).table;
    forall l1: string, k1: string | l1 in t && k1 in t[l1]
      ensures t[l1][k1].name == k1 && t[l1][k1].retained == 0 && s.next - 1 <= t[l1][k1].classId < ClassIdBase
    {
      if !(l1 == l && k1 == key) {
        assert t[l1][k1] == s.table[l1][k1];
      }
    }
  }

  lemma PutDistinct(s: Tally, l: string, key: string, objects: int, usedHeap: int)
    requires InRange(s.table, s.next, ClassIdBase) && DistinctIds(s.table)
    ensures DistinctIds(Put(s, l, key, objects, usedHeap).table)
  {
    var t: Table := Put(s, l, key, objects, usedHeap).table;
    forall l1: string, k1: string | l1 in t && k1 in t[l1]
      ensures !(l1 == l && k1 == key) ==> l1 in s.table && k1 in s.table[l1] && t[l1][k1] == s.table[l1][k1]
      ensures t[l1][k1].classId == s.next - 1 <==> l1 == l && k1 == key
    {
    }
    forall l1: string, k1: string, l2: string, k2: string |
      l1 in t && k1 in t[l1] && l2 in t && k2 in t[l2] && t[l1][k1].classId == t[l2][k2].classId
      ensures l1 == l2 && k1 == k2
    {
      if t[l1][k1].classId != s.next - 1 {
        assert s.table[l1][k1].classId == s.table[l2][k2].classId;
      }
    }
  }

  /** `incNumberOfObjects`/`incUsedHeapSize` on the record under `l` and
      `key`, which is first created with the next id when missing. */
  function Add(s: Tally, l: string, key: string, objects: int, usedHeap: int): (r: Tally)
    ensures l in r.table && key in r.table[l]
    ensures r.next == s.next || r.next == s.next - 1
  {
    var inner := Inner(s.table, l);
    if key in inner then
      var rec := inner[key];
      Tally(s.table[l := inner[key := rec.(objects := rec.objects + objects, usedHeap := rec.usedHeap + usedHeap)]], s.next)
    else
      Put(s, l, key, objects, usedHeap)
  }

  lemma AddAt(s: Tally, l: string, key: string, objects: int, usedHeap: int, l': string, k: string, m: Measure)
    ensures Count(Add(s, l, key, objects, usedHeap).table, l', k, m) ==
            Count(s.table, l', k, m) + (if l' == l && k == key then (if m == Objects then objects else usedHeap) else 0)
    ensures l' in Add(s, l, key, objects, usedHeap).table <==> l' in s.table || l' == l
    ensures l' in Add(s, l, key, objects, usedHeap).table && k in Add(s, l, key, objects, usedHeap).table[l'] <==>
            (l' in s.table && k in s.table[l']) || (l' == l && k == key)
  {
  }

  lemma AddInRange(s: Tally, l: string, key: string, objects: int, usedHeap: int)
    requires InRange(s.table, s.next, ClassIdBase)
    ensures InRange(Add(s, l, key, objects, usedHeap).table, Add(s, l, key, objects, usedHeap).next, ClassIdBase)
  {
    var r := Add(s, l, key, objects, usedHeap);
    var t: Table := r.table;
    forall l1: string, k1: string | l1 in t && k1 in t[l1]
      ensures t[l1][k1].name == k1 && t[l1][k1].retained == 0 && r.next <= t[l1][k1].classId < ClassIdBase
    {
      if !(l1 == l && k1 == key) {
        assert t[l1][k1] == s.table[l1][k1];
      }
    }
  }

  lemma AddDistinct(s: Tally, l: string, key: string, objects: int, usedHeap: int)
    requires InRange(s.table, s.next, ClassIdBase) && DistinctIds(s.table)
    ensures DistinctIds(Add(s, l, key, objects, usedHeap).table)
  {
    var t: Table := Add(s, l, key, objects, usedHeap).table;
    if l in s.table && key in s.table[l] {
      forall l1: string, k1: string | l1 in t && k1 in t[l1]
        ensures l1 in s.table && k1 in s.table[l1] && t[l1][k1].classId == s.table[l1][k1].classId
      {
      }
      forall l1: string, k1: string, l2: string, k2: string |
        l1 in t && k1 in t[l1] && l2 in t && k2 in t[l2] && t[l1][k1].classId == t[l2][k2].classId
        ensures l1 == l2 && k1 == k2
      {
        assert s.table[l1][k1].classId == s.table[l2][k2].classId;
      }
    } else {
      PutDistinct(s, l, key, objects, usedHeap);
    }
  }

  lemma AddFresh(s: Tally, l: string, key: string, objects: int, usedHeap: int)
    requires Fresh(s.table, s.next, ClassIdBase)
    ensures Fresh(Add(s, l, key, objects, usedHeap).table, Add(s, l, key, objects, usedHeap).next, ClassIdBase)
  {
    AddInRange(s, l, key, objects, usedHeap);
    AddDistinct(s, l, key, objects, usedHeap);
  }

  /** `x`, or its negation when `negate` holds. */
  function Signed(negate: bool, x: int): int {
    if negate then -x else x
  }

  /** The class loop: every record of `classes` added, or subtracted when
      `negate` holds. */
  function AddClasses(s: Tally, l: string, classes: seq<ClassRecord>, negate: bool, prefix: string): Tally
  {
    if classes == [] then s
    else
      var c := classes[|classes| - 1];
      Add(AddClasses(s, l, classes[..|classes| - 1], negate, prefix), l, prefix + c.name, Signed(negate, c.objects), Signed(negate, c.usedHeap))
  }

  /** The loader loop: each loader's map fetched or created, then its
      classes added. */
  function AddLoaders(s: Tally, loaders: seq<LoaderRecord>, negate: bool, prefix: string): Tally
  {
    if loaders == [] then s
    else
      var lr := loaders[|loaders| - 1];
      AddClasses(Touch(AddLoaders(s, loaders[..|loaders| - 1], negate, prefix), lr.name), lr.name, lr.classes, negate, prefix)
  }

  lemma {:induction false} AddClassesCount(s: Tally, l: string, classes: seq<ClassRecord>, negate: bool, prefix: string,
                                           l': string, k: string, m: Measure)
    ensures Count(AddClasses(s, l, classes, negate, prefix).table, l', k, m) ==
            Count(s.table, l', k, m) + (if l' == l then Signed(negate, KeySum(classes, prefix, k, m)) else 0)
  {
    if classes != [] {
      var init := classes[..|classes| - 1];
      var c := classes[|classes| - 1];
      AddClassesCount(s, l, init, negate, prefix, l', k, m);
      AddAt(AddClasses(s, l, init, negate, prefix), l, prefix + c.name, Signed(negate, c.objects), Signed(negate, c.usedHeap), l', k, m);
    }
  }

  lemma {:induction false} AddClassesLoaders(s: Tally, l: string, classes: seq<ClassRecord>, negate: bool, prefix: string, l': string)
    ensures l' in AddClasses(s, l, classes, negate, prefix).table <==> l' in s.table || (l' == l && classes != [])
  {
    if classes != [] {
      var init := classes[..|classes| - 1];
      var c := classes[|classes| - 1];
      AddClassesLoaders(s, l, init, negate, prefix, l');
      AddAt(AddClasses(s, l, init, negate, prefix), l, prefix + c.name, Signed(negate, c.objects), Signed(negate, c.usedHeap), l', "", Objects);
    }
  }

  lemma {:induction false} AddClassesKeys(s: Tally, l: string, classes: seq<ClassRecord>, negate: bool, prefix: string, l': string, k: string)
    ensures l' in AddClasses(s, l, classes, negate, prefix).table && k in AddClasses(s, l, classes, negate, prefix).table[l'] <==>
            (l' in s.table && k in s.table[l']) || (l' == l && KeyOccurs(classes, prefix, k))
  {
    if classes != [] {
      var init := classes[..|classes| - 1];
      var c := classes[|classes| - 1];
      AddClassesKeys(s, l, init, negate, prefix, l', k);
      AddAt(AddClasses(s, l, init, negate, prefix), l, prefix + c.name, Signed(negate, c.objects), Signed(negate, c.usedHeap), l', k, Objects);
      if KeyOccurs(init, prefix, k) {
        var j :| 0 <= j < |init| && prefix + init[j].name == k;
        assert classes[j] == init[j];
      }
      if KeyOccurs(classes, prefix, k) && prefix + c.name != k {
        var j :| 0 <= j < |classes| && prefix + classes[j].name == k;
        assert init[j] == classes[j];
      }
      assert prefix + c.name == k ==> KeyOccurs(classes, prefix, k) by {
        assert classes[|classes| - 1] == c;
      }
    }
  }

  lemma {:induction false} AddClassesFresh(s: Tally, l: string, classes: seq<ClassRecord>, negate: bool, prefix: string)
    requires Fresh(s.table, s.next, ClassIdBase)
    ensures AddClasses(s, l, classes, negate, prefix).next <= s.next
    ensures Fresh(AddClasses(s, l, classes, negate, prefix).table, AddClasses(s, l, classes, negate, prefix).next, ClassIdBase)
  {
    if classes != [] {
      var init := classes[..|classes| - 1];
      var c := classes[|classes| - 1];
      AddClassesFresh(s, l, init, negate, prefix);
      AddFresh(AddClasses(s, l, init, negate, prefix), l, prefix + c.name, Signed(negate, c.objects), Signed(negate, c.usedHeap));
    }
  }

  lemma {:induction false} AddLoadersCount(s: Tally, loaders: seq<LoaderRecord>, negate: bool, prefix: string,
                                           l: string, k: string, m: Measure)
    ensures Count(AddLoaders(s, loaders, negate, prefix).table, l, k, m) ==
            Count(s.table, l, k, m) + Signed(negate, LoaderSum(loaders, l, prefix, k, m))
  {
    if loaders != [] {
      var init := loaders[..|loaders| - 1];
      var lr := loaders[|loaders| - 1];
      AddLoadersCount(s, init, negate, prefix, l, k, m);
      TouchAt(AddLoaders(s, init, negate, prefix), lr.name, l, k, m);
      AddClassesCount(Touch(AddLoaders(s, init, negate, prefix), lr.name), lr.name, lr.classes, negate, prefix, l, k, m);
    }
  }

  lemma {:induction false} AddLoadersLoaders(s: Tally, loaders: seq<LoaderRecord>, negate: bool, prefix: string, l: string)
    ensures l in AddLoaders(s, loaders, negate, prefix).table <==> l in s.table || NameOccurs(loaders, l)
  {
    if loaders != [] {
      var init := loaders[..|loaders| - 1];
      var lr := loaders[|loaders| - 1];
      AddLoadersLoaders(s, init, negate, prefix, l);
      TouchAt(AddLoaders(s, init, negate, prefix), lr.name, l, "", Objects);
      AddClassesLoaders(Touch(AddLoaders(s, init, negate, prefix), lr.name), lr.name, lr.classes, negate, prefix, l);
      if NameOccurs(init, l) {
        var i :| 0 <= i < |init| && init[i].name == l;
        assert loaders[i] == init[i];
      }
      if NameOccurs(loaders, l) && lr.name != l {
        var i :| 0 <= i < |loaders| && loaders[i].name == l;
        assert init[i] == loaders[i];
      }
      assert loaders[|loaders| - 1] == lr;
    }
  }

  lemma {:induction false} AddLoadersKeys(s: Tally, loaders: seq<LoaderRecord>, negate: bool, prefix: string, l: string, k: string)
    ensures l in AddLoaders(s, loaders, negate, prefix).table && k in AddLoaders(s, loaders, negate, prefix).table[l] <==>
            (l in s.table && k in s.table[l]) || PairOccurs(loaders, l, prefix, k)
  {
    if loaders != [] {
      var init := loaders[..|loaders| - 1];
      var lr := loaders[|loaders| - 1];
      AddLoadersKeys(s, init, negate, prefix, l, k);
      TouchAt(AddLoaders(s, init, negate, prefix), lr.name, l, k, Objects);
      AddClassesKeys(Touch(AddLoaders(s, init, negate, prefix), lr.name), lr.name, lr.classes, negate, prefix, l, k);
      assert loaders[|loaders| - 1] == lr;
      if PairOccurs(init, l, prefix, k) {
        var i :| 0 <= i < |init| && init[i].name == l && KeyOccurs(init[i].classes, prefix, k);
        assert loaders[i] == init[i];
      }
      if PairOccurs(loaders, l, prefix, k) && !(lr.name == l && KeyOccurs(lr.classes, prefix, k)) {
        var i :| 0 <= i < |loaders| && loaders[i].name == l && KeyOccurs(loaders[i].classes, prefix, k);
        assert init[i] == loaders[i];
      }
    }
  }

  lemma {:induction false} AddLoadersFresh(s: Tally, loaders: seq<LoaderRecord>, negate: bool, prefix: string)
    requires Fresh(s.table, s.next, ClassIdBase)
    ensures AddLoaders(s, loaders, negate, prefix).next <= s.next
    ensures Fresh(AddLoaders(s, loaders, negate, prefix).table, AddLoaders(s, loaders, negate, prefix).next, ClassIdBase)
  {
    if loaders != [] {
      var init := loaders[..|loaders| - 1];
      var lr := loaders[|loaders| - 1];
      AddLoadersFresh(s, init, negate, prefix);
      TouchFresh(AddLoaders(s, init, negate, prefix), lr.name);
      AddClassesFresh(Touch(AddLoaders(s, init, negate, prefix), lr.name), lr.name, lr.classes, negate, prefix);
    }
  }

  // ---------------------------------------------------------------------
  // The second pass of the intersection
  // ---------------------------------------------------------------------

  predicate StartsWithTag(s: string) {
    |s| >= |Tag| && s[..|Tag|] == Tag
  }

  /** No class record of `loaders` has a name that begins with the tag. */
  predicate Untagged(loaders: seq<LoaderRecord>) {
    forall i, j :: 0 <= i < |loaders| && 0 <= j < |loaders[i].classes| ==> !StartsWithTag(loaders[i].classes[j].name)
  }

  lemma TagInjective(x: string, y: string)
    ensures Tag + x == Tag + y <==> x == y
    ensures StartsWithTag(Tag + x)
  {
    if Tag + x == Tag + y {
      assert x == (Tag + x)[|Tag|..];
      assert y == (Tag + y)[|Tag|..];
    }
    assert (Tag + x)[..|Tag|] == Tag;
  }

  /** A record of the other histogram under loader `l` matches when the
      tagged record of the first histogram has the same positive object
      count. */
  predicate Matches(t: Table, l: string, c: ClassRecord) {
    Count(t, l, Tag + c.name, Objects) > 0 && Count(t, l, Tag + c.name, Objects) == c.objects
  }

  /** One record of the other histogram: on a match a record under the
      plain name replaces any earlier one, with a fresh id, the tagged
      object count and the sum of both used heaps. */
  function Match(s: Tally, l: string, c: ClassRecord): (r: Tally)
    ensures r.next == s.next || r.next == s.next - 1
  {
    var inner := Inner(s.table, l);
    var tagged := Tag + c.name;
    if tagged in inner && inner[tagged].objects > 0 && inner[tagged].objects == c.objects then
      var d := inner[tagged];
      Put(s, l, c.name, d.objects, d.usedHeap + c.usedHeap)
    else s
  }

  lemma MatchFresh(s: Tally, l: string, c: ClassRecord)
    requires Fresh(s.table, s.next, ClassIdBase)
    ensures Match(s, l, c).next <= s.next
    ensures Fresh(Match(s, l, c).table, Match(s, l, c).next, ClassIdBase)
  {
    var inner := Inner(s.table, l);
    var tagged := Tag + c.name;
    if tagged in inner && inner[tagged].objects > 0 && inner[tagged].objects == c.objects {
      var d := inner[tagged];
      assert Match(s, l, c) == Put(s, l, c.name, d.objects, d.usedHeap + c.usedHeap);
      PutInRange(s, l, c.name, d.objects, d.usedHeap + c.usedHeap);
      PutDistinct(s, l, c.name, d.objects, d.usedHeap + c.usedHeap);
    }
  }

  function MatchClasses(s: Tally, l: string, classes: seq<ClassRecord>): Tally
  {
    if classes == [] then s
    else Match(MatchClasses(s, l, classes[..|classes| - 1]), l, classes[|classes| - 1])
  }

  function MatchLoaders(s: Tally, loaders: seq<LoaderRecord>): Tally
  {
    if loaders == [] then s
    else
      var lr := loaders[|loaders| - 1];
      MatchClasses(Touch(MatchLoaders(s, loaders[..|loaders| - 1]), lr.name), lr.name, lr.classes)
  }

  /** The last record named `k` among `classes` whose object count is the
      positive `count`. */
  function LastIn(classes: seq<ClassRecord>, k: string, count: int): (r: Option<ClassRecord>)
    ensures r.Some? ==> r.value in classes && r.value.name == k && count > 0 && r.value.objects == count
  {
    if classes == [] then None
    else
      var c := classes[|classes| - 1];
      if c.name == k && count > 0 && c.objects == count then Some(c) else LastIn(classes[..|classes| - 1], k, count)
  }

  /** The last such record under a loader record named `l`. */
  function LastMatch(loaders: seq<LoaderRecord>, l: string, k: string, count: int): (r: Option<ClassRecord>)
    ensures r.Some? ==> r.value.name == k && count > 0 && r.value.objects == count
  {
    if loaders == [] then None
    else
      var lr := loaders[|loaders| - 1];
      var found := if lr.name == l then LastIn(lr.classes, k, count) else None;
      if found.Some? then found else LastMatch(loaders[..|loaders| - 1], l, k, count)
  }

  predicate Has(t: Table, l: string, k: string) {
    l in t && k in t[l]
  }

  lemma MatchAt(s: Tally, l0: string, c: ClassRecord, l: string, k: string, m: Measure)
    requires !StartsWithTag(c.name)
    ensures Has(Match(s, l0, c).table, l, Tag + k) == Has(s.table, l, Tag + k)
    ensures Count(Match(s, l0, c).table, l, Tag + k, m) == Count(s.table, l, Tag + k, m)
    ensures l in Match(s, l0, c).table <==> l in s.table || (l == l0 && Matches(s.table, l0, c))
    ensures Has(Match(s, l0, c).table, l, k) <==> Has(s.table, l, k) || (l == l0 && k == c.name && Matches(s.table, l0, c))
    ensures Count(Match(s, l0, c).table, l, k, m) ==
            if l == l0 && k == c.name && Matches(s.table, l0, c)
            then (if m == Objects then c.objects else Count(s.table, l0, Tag + k, UsedHeap) + c.usedHeap)
            else Count(s.table, l, k, m)
  {
    TagInjective(k, "");
  }

  lemma {:induction false} MatchClassesAt(s: Tally, l0: string, classes: seq<ClassRecord>, l: string, k: string, m: Measure)
    requires l0 in s.table
    requires forall j :: 0 <= j < |classes| ==> !StartsWithTag(classes[j].name)
    ensures Has(MatchClasses(s, l0, classes).table, l, Tag + k) == Has(s.table, l, Tag + k)
    ensures Count(MatchClasses(s, l0, classes).table, l, Tag + k, m) == Count(s.table, l, Tag + k, m)
    ensures l in MatchClasses(s, l0, classes).table <==> l in s.table
    ensures var found := LastIn(classes, k, Count(s.table, l0, Tag + k, Objects));
            Has(MatchClasses(s, l0, classes).table, l, k) <==> Has(s.table, l, k) || (l == l0 && found.Some?)
    ensures var found := LastIn(classes, k, Count(s.table, l0, Tag + k, Objects));
            Count(MatchClasses(s, l0, classes).table, l, k, m) ==
            if l == l0 && found.Some?
            then (if m == Objects then found.value.objects else Count(s.table, l0, Tag + k, UsedHeap) + found.value.usedHeap)
            else Count(s.table, l, k, m)
  {
    if classes != [] {
      var init := classes[..|classes| - 1];
      var c := classes[|classes| - 1];
      var before := MatchClasses(s, l0, init);
      MatchClassesAt(s, l0, init, l, k, m);
      MatchClassesAt(s, l0, init, l0, c.name, Objects);
      MatchAt(before, l0, c, l, k, m);
      if c.name == k {
        MatchClassesAt(s, l0, init, l0, k, UsedHeap);
      }
    }
  }

  lemma {:induction false} MatchLoadersAt(s: Tally, loaders: seq<LoaderRecord>, l: string, k: string, m: Measure)
    requires Untagged(loaders)
    ensures Has(MatchLoaders(s, loaders).table, l, Tag + k) == Has(s.table, l, Tag + k)
    ensures Count(MatchLoaders(s, loaders).table, l, Tag + k, m) == Count(s.table, l, Tag + k, m)
    ensures l in MatchLoaders(s, loaders).table <==> l in s.table || NameOccurs(loaders, l)
    ensures var found := LastMatch(loaders, l, k, Count(s.table, l, Tag + k, Objects));
            Has(MatchLoaders(s, loaders).table, l, k) <==> Has(s.table, l, k) || found.Some?
    ensures var found := LastMatch(loaders, l, k, Count(s.table, l, Tag + k, Objects));
            Count(MatchLoaders(s, loaders).table, l, k, m) ==
            if found.Some?
            then (if m == Objects then found.value.objects else Count(s.table, l, Tag + k, UsedHeap) + found.value.usedHeap)
            else Count(s.table, l, k, m)
  {
    MatchLoadersTagged(s, loaders, l, k, m);
    MatchLoadersFound(s, loaders, l, k, m);
  }

  /** Dropping the last loader record keeps the records untagged. */
  lemma UntaggedSplit(loaders: seq<LoaderRecord>, lr: LoaderRecord)
    requires Untagged(loaders) && loaders != [] && lr == loaders[|loaders| - 1]
    ensures Untagged(loaders[..|loaders| - 1])
    ensures forall j :: 0 <= j < |lr.classes| ==> !StartsWithTag(lr.classes[j].name)
  {
    var init := loaders[..|loaders| - 1];
    forall i, j | 0 <= i < |init| && 0 <= j < |init[i].classes|
      ensures !StartsWithTag(init[i].classes[j].name)
    {
      assert init[i] == loaders[i];
    }
  }

  /** The search for the second input's records leaves the tagged records
      alone and adds an entry for every loader it visits. */
  lemma {:induction false} MatchLoadersTagged(s: Tally, loaders: seq<LoaderRecord>, l: string, k: string, m: Measure)
    requires Untagged(loaders)
    ensures Has(MatchLoaders(s, loaders).table, l, Tag + k) == Has(s.table, l, Tag + k)
    ensures Count(MatchLoaders(s, loaders).table, l, Tag + k, m) == Count(s.table, l, Tag + k, m)
    ensures l in MatchLoaders(s, loaders).table <==> l in s.table || NameOccurs(loaders, l)
  {
    if loaders != [] {
      var init := loaders[..|loaders| - 1];
      var lr := loaders[|loaders| - 1];
      UntaggedSplit(loaders, lr);
      var before := MatchLoaders(s, init);
      MatchLoadersTagged(s, init, l, k, m);
      TouchAt(before, lr.name, l, Tag + k, m);
      MatchClassesAt(Touch(before, lr.name), lr.name, lr.classes, l, k, m);
      NamesAppended(init, lr);
      assert init + [lr] == loaders;
    }
  }

  /** The untagged record of a class under a loader is the last matching
      record of the second input, when there is one. */
  lemma {:induction false} MatchLoadersFound(s: Tally, loaders: seq<LoaderRecord>, l: string, k: string, m: Measure)
    requires Untagged(loaders)
    ensures var found := LastMatch(loaders, l, k, Count(s.table, l, Tag + k, Objects));
            Has(MatchLoaders(s, loaders).table, l, k) <==> Has(s.table, l, k) || found.Some?
    ensures var found := LastMatch(loaders, l, k, Count(s.table, l, Tag + k, Objects));
            Count(MatchLoaders(s, loaders).table, l, k, m) ==
            if found.Some?
            then (if m == Objects then found.value.objects else Count(s.table, l, Tag + k, UsedHeap) + found.value.usedHeap)
            else Count(s.table, l, k, m)
  {
    if loaders != [] {
      var init := loaders[..|loaders| - 1];
      var lr := loaders[|loaders| - 1];
      UntaggedSplit(loaders, lr);
      var before := MatchLoaders(s, init);
      MatchLoadersFound(s, init, l, k, m);
      MatchLoadersTagged(s, init, l, k, Objects);
      MatchLoadersTagged(s, init, l, k, UsedHeap);
      TouchAt(before, lr.name, l, k, m);
      TouchAt(before, lr.name, l, Tag + k, Objects);
      TouchAt(before, lr.name, l, Tag + k, UsedHeap);
      MatchClassesAt(Touch(before, lr.name), lr.name, lr.classes, l, k, m);
    }
  }

  lemma {:induction false} MatchClassesFresh(s: Tally, l: string, classes: seq<ClassRecord>)
    requires Fresh(s.table, s.next, ClassIdBase)
    ensures MatchClasses(s, l, classes).next <= s.next
    ensures Fresh(MatchClasses(s, l, classes).table, MatchClasses(s, l, classes).next, ClassIdBase)
  {
    if classes != [] {
      MatchClassesFresh(s, l, classes[..|classes| - 1]);
      MatchFresh(MatchClasses(s, l, classes[..|classes| - 1]), l, classes[|classes| - 1]);
    }
  }

  lemma {:induction false} MatchLoadersFresh(s: Tally, loaders: seq<LoaderRecord>)
    requires Fresh(s.table, s.next, ClassIdBase)
    ensures MatchLoaders(s, loaders).next <= s.next
    ensures Fresh(MatchLoaders(s, loaders).table, MatchLoaders(s, loaders).next, ClassIdBase)
  {
    if loaders != [] {
      var init := loaders[..|loaders| - 1];
      var lr := loaders[|loaders| - 1];
      MatchLoadersFresh(s, init);
      TouchFresh(MatchLoaders(s, init), lr.name);
      MatchClassesFresh(Touch(MatchLoaders(s, init), lr.name), lr.name, lr.classes);
    }
  }

  // ---------------------------------------------------------------------
  // Merging the table into loader records and class totals
  // ---------------------------------------------------------------------

  /** The sum of `m` over `records`. */
  function Sum(records: seq<ClassRecord>, m: Measure): int
  {
    if records == [] then 0 else Sum(records[..|records| - 1], m) + Value(records[|records| - 1], m)
  }

  /** The sum, over every non-empty prefix of `records`, of that prefix's
      sum: what adding the running subtotal after each record yields. */
  function Running(records: seq<ClassRecord>, m: Measure): int
  {
    if records == [] then 0 else Running(records[..|records| - 1], m) + Sum(records, m)
  }

  /** The sum of `m` over the records named `k`. */
  function NameSum(records: seq<ClassRecord>, k: string, m: Measure): int
  {
    if records == [] then 0
    else NameSum(records[..|records| - 1], k, m) + (if records[|records| - 1].name == k then Value(records[|records| - 1], m) else 0)
  }

  /** Some record is named `k`. */
  predicate NameIn(records: seq<ClassRecord>, k: string)
  {
    exists j :: 0 <= j < |records| && records[j].name == k
  }

  /** Which table records go into the result: all of them for the
      difference, the untagged ones for the intersection. */
  predicate Kept(intersection: bool, k: string) {
    !intersection || !StartsWithTag(k)
  }

  function MergedCount(merged: map<string, ClassRecord>, c: string, m: Measure): int {
    if c in merged then Value(merged[c], m) else 0
  }

  /** The merged class records sit under their own names, have retained
      heap zero and distinct ids in `[next, below)`. */
  predicate MergedFresh(merged: map<string, ClassRecord>, next: int, below: int)
  {
    next <= below &&
    (forall c :: c in merged ==> merged[c].name == c && merged[c].retained == 0 && next <= merged[c].classId < below) &&
    (forall c1, c2 :: c1 in merged && c2 in merged && merged[c1].classId == merged[c2].classId ==> c1 == c2)
  }

  /** The class records of one loader record: the kept records of the
      loader's table entry, each once. */
  ghost predicate RecordsOf(t: Table, l: string, intersection: bool, records: seq<ClassRecord>)
    requires l in t
  {
    RecordsFrom(t, l, records) && KeysListed(t, l, intersection, records) &&
    (forall k, m :: NameSum(records, k, m) == if Kept(intersection, k) then Count(t, l, k, m) else 0)
  }

  /** Each record is the table's record of its name, and no name repeats. */
  ghost predicate RecordsFrom(t: Table, l: string, records: seq<ClassRecord>)
    requires l in t
  {
    (forall j :: 0 <= j < |records| ==> records[j].name in t[l] && records[j] == t[l][records[j].name]) &&
    (forall j, j' :: 0 <= j < j' < |records| ==> records[j].name != records[j'].name)
  }

  /** A name has a record exactly when the table entry holds a kept
      record of that name. */
  ghost predicate KeysListed(t: Table, l: string, intersection: bool, records: seq<ClassRecord>)
    requires l in t
  {
    forall k :: NameIn(records, k) <==> k in t[l] && Kept(intersection, k)
  }

  /** The records collected after visiting the keys `visited` of the
      loader's table entry. */
  ghost predicate Collected(t: Table, l: string, intersection: bool, visited: set<string>, records: seq<ClassRecord>)
    requires l in t
  {
    (forall j :: 0 <= j < |records| ==> records[j].name in visited && records[j].name in t[l] && records[j] == t[l][records[j].name]) &&
    (forall j, j' :: 0 <= j < j' < |records| ==> records[j].name != records[j'].name) &&
    (forall k :: NameIn(records, k) <==> k in visited && k in t[l] && Kept(intersection, k)) &&
    (forall k, m :: NameSum(records, k, m) == if k in visited && Kept(intersection, k) then Count(t, l, k, m) else 0)
  }

  lemma CollectStep(t: Table, l: string, intersection: bool, visited: set<string>, records: seq<ClassRecord>, k: string)
    requires l in t && k in t[l] && k !in visited && t[l][k].name == k
    requires Collected(t, l, intersection, visited, records)
    ensures Kept(intersection, k) ==> Collected(t, l, intersection, visited + {k}, records + [t[l][k]])
    ensures !Kept(intersection, k) ==> Collected(t, l, intersection, visited + {k}, records)
  {
    var rec := t[l][k];
    RecordAppended(records, rec);
    if Kept(intersection, k) {
      var r := records + [rec];
      forall j | 0 <= j < |r| ensures r[j].name in visited + {k} && r[j].name in t[l] && r[j] == t[l][r[j].name] {
        if j < |records| {
          assert r[j] == records[j];
        }
      }
      forall j, j' | 0 <= j < j' < |r| ensures r[j].name != r[j'].name {
        assert r[j] == records[j];
        if j' < |records| {
          assert r[j'] == records[j'];
        }
      }
    }
  }

  /** The merged class record of `rec`'s name, created with the next id
      when missing, gains `rec`'s objects and used heap. */
  function MergeInto(merged: map<string, ClassRecord>, next: int, rec: ClassRecord): (r: (map<string, ClassRecord>, int))
    ensures rec.name in r.0
    ensures forall c, m :: MergedCount(r.0, c, m) == MergedCount(merged, c, m) + (if c == rec.name then Value(rec, m) else 0)
    ensures forall c :: c in r.0 <==> c in merged || c == rec.name
  {
    var next' := if rec.name in merged then next else next - 1;
    var total := if rec.name in merged then merged[rec.name] else ClassRecord(rec.name, next', 0, 0, 0);
    (merged[rec.name := total.(objects := total.objects + rec.objects, usedHeap := total.usedHeap + rec.usedHeap)], next')
  }

  lemma MergeIntoFresh(merged: map<string, ClassRecord>, next: int, below: int, rec: ClassRecord)
    requires MergedFresh(merged, next, below)
    ensures MergeInto(merged, next, rec).1 <= next
    ensures MergedFresh(MergeInto(merged, next, rec).0, MergeInto(merged, next, rec).1, below)
  {
    var r := MergeInto(merged, next, rec);
    forall c | c in r.0 ensures c != rec.name ==> r.0[c] == merged[c] {
    }
  }

  /** The merged class records after adding `records` into `merged0`. */
  ghost predicate MergedAfter(merged0: map<string, ClassRecord>, merged: map<string, ClassRecord>, records: seq<ClassRecord>)
  {
    (forall c, m :: MergedCount(merged, c, m) == MergedCount(merged0, c, m) + NameSum(records, c, m)) &&
    (forall c :: c in merged <==> c in merged0 || NameIn(records, c))
  }

  lemma MergeStep(merged0: map<string, ClassRecord>, merged: map<string, ClassRecord>, next: int, records: seq<ClassRecord>, rec: ClassRecord)
    requires MergedAfter(merged0, merged, records)
    ensures MergedAfter(merged0, MergeInto(merged, next, rec).0, records + [rec])
  {
    RecordAppended(records, rec);
  }

  /** The inner loop of the merge: the records of loader `l` are collected
      and summed, and each is added into the merged class record of its
      name, created with the next id when missing. */
  method MergeLoader(t: Table, l: string, intersection: bool, merged0: map<string, ClassRecord>, next0: int, below: int)
    returns (records: seq<ClassRecord>, objects: int, usedHeap: int, runObjects: int, runHeap: int,
             merged: map<string, ClassRecord>, next: int)
    requires l in t && forall k :: k in t[l] ==> t[l][k].name == k
    requires MergedFresh(merged0, next0, below)
    ensures RecordsOf(t, l, intersection, records)
    ensures objects == Sum(records, Objects) && usedHeap == Sum(records, UsedHeap)
    ensures runObjects == (if intersection then Running(records, Objects) else 0)
    ensures runHeap == (if intersection then Running(records, UsedHeap) else 0)
    ensures MergedAfter(merged0, merged, records)
    ensures next <= next0 && MergedFresh(merged, next, below)
  {
    var inner := t[l];
    var remaining := inner.Keys;
    ghost var visited: set<string> := {};
    records, objects, usedHeap, runObjects, runHeap := [], 0, 0, 0, 0;
    merged, next := merged0, next0;
    while remaining != {}
      invariant remaining + visited == inner.Keys && remaining !! visited
      invariant Collected(t, l, intersection, visited, records)
      invariant Summed(intersection, records, objects, usedHeap, runObjects, runHeap)
      invariant MergedAfter(merged0, merged, records)
      invariant next <= next0 && MergedFresh(merged, next, below)
      decreases remaining
    {
      var k := Pick(remaining);
      var rec := inner[k];
      CollectStep(t, l, intersection, visited, records, k);
      if Kept(intersection, rec.name) {
        records, objects, usedHeap, runObjects, runHeap, merged, next :=
          TakeRecord(intersection, rec, records, objects, usedHeap, runObjects, runHeap, merged0, merged, next0, next, below);
      }
      remaining := remaining - {k};
      visited := visited + {k};
    }
    CollectedAll(t, l, intersection, records);
  }

  /** The figures the inner loop of the merge keeps about the records it
      has collected: their totals and, for the intersection, the running
      sums of those totals. */
  ghost predicate Summed(intersection: bool, records: seq<ClassRecord>, objects: int, usedHeap: int, runObjects: int, runHeap: int)
  {
    objects == Sum(records, Objects) && usedHeap == Sum(records, UsedHeap) &&
    runObjects == (if intersection then Running(records, Objects) else 0) &&
    runHeap == (if intersection then Running(records, UsedHeap) else 0)
  }

  /** One kept record of the inner loop of the merge: appended, summed and
      added into the merged class record of its name. */
  method TakeRecord(intersection: bool, rec: ClassRecord, records0: seq<ClassRecord>,
                    objects0: int, usedHeap0: int, runObjects0: int, runHeap0: int,
                    ghost merged0: map<string, ClassRecord>, mergedIn: map<string, ClassRecord>,
                    ghost next0: int, nextIn: int, ghost below: int)
    returns (records: seq<ClassRecord>, objects: int, usedHeap: int, runObjects: int, runHeap: int,
             merged: map<string, ClassRecord>, next: int)
    requires Summed(intersection, records0, objects0, usedHeap0, runObjects0, runHeap0)
    requires MergedAfter(merged0, mergedIn, records0)
    requires nextIn <= next0 && MergedFresh(mergedIn, nextIn, below)
    ensures records == records0 + [rec]
    ensures Summed(intersection, records, objects, usedHeap, runObjects, runHeap)
    ensures MergedAfter(merged0, merged, records)
    ensures next <= next0 && MergedFresh(merged, next, below)
  {
    MergeIntoFresh(mergedIn, nextIn, below, rec);
    MergeStep(merged0, mergedIn, nextIn, records0, rec);
    RecordAppended(records0, rec);
    merged, next := MergeInto(mergedIn, nextIn, rec).0, MergeInto(mergedIn, nextIn, rec).1;
    records := records0 + [rec];
    objects := objects0 + rec.objects;
    usedHeap := usedHeap0 + rec.usedHeap;
    runObjects, runHeap := runObjects0, runHeap0;
    if intersection {
      runObjects := runObjects + objects;
      runHeap := runHeap + usedHeap;
    }
  }

  lemma CollectedAll(t: Table, l: string, intersection: bool, records: seq<ClassRecord>)
    requires l in t && Collected(t, l, intersection, t[l].Keys, records)
    ensures RecordsOf(t, l, intersection, records)
  {
    forall k, m ensures NameSum(records, k, m) == if Kept(intersection, k) then Count(t, l, k, m) else 0 {
      assert NameSum(records, k, m) == if k in t[l].Keys && Kept(intersection, k) then Count(t, l, k, m) else 0;
    }
  }

  /** What appending one record does to the sums and the name lookups. */
  lemma RecordAppended(records: seq<ClassRecord>, rec: ClassRecord)
    ensures forall m :: Sum(records + [rec], m) == Sum(records, m) + Value(rec, m)
    ensures forall m :: Running(records + [rec], m) == Running(records, m) + Sum(records + [rec], m)
    ensures forall k, m :: NameSum(records + [rec], k, m) == NameSum(records, k, m) + (if rec.name == k then Value(rec, m) else 0)
    ensures forall k :: NameIn(records + [rec], k) <==> NameIn(records, k) || rec.name == k
  {
    var r := records + [rec];
    assert r[..|r| - 1] == records;
    assert rec.name == rec.name;
    forall k | NameIn(r, k) && rec.name != k ensures NameIn(records, k) {
      var j :| 0 <= j < |r| && r[j].name == k;
      assert r[j] == records[j];
    }
    forall k | NameIn(records, k) ensures NameIn(r, k) {
      var j :| 0 <= j < |records| && records[j].name == k;
      assert r[j] == records[j];
    }
    assert NameIn(r, rec.name) by {
      assert r[|r| - 1].name == rec.name;
    }
  }

  /** The sum of `m` over every class record named `c` in `loaders`. */
  function ClassTotal(loaders: seq<LoaderRecord>, c: string, m: Measure): int
  {
    if loaders == [] then 0
    else ClassTotal(loaders[..|loaders| - 1], c, m) + NameSum(loaders[|loaders| - 1].classes, c, m)
  }

  /** Some loader record of `loaders` has a class record named `c`. */
  predicate ClassOccurs(loaders: seq<LoaderRecord>, c: string)
  {
    exists i :: 0 <= i < |loaders| && NameIn(loaders[i].classes, c)
  }

  /** The sum, over the loader records, of their running subtotals. */
  function Overall(loaders: seq<LoaderRecord>, m: Measure): int
  {
    if loaders == [] then 0
    else Overall(loaders[..|loaders| - 1], m) + Running(loaders[|loaders| - 1].classes, m)
  }

  /** A loader record built from the table entry of its name. */
  ghost predicate LoaderRecordOf(t: Table, intersection: bool, lr: LoaderRecord)
  {
    lr.name in t && RecordsOf(t, lr.name, intersection, lr.classes) &&
    lr.objects == Sum(lr.classes, Objects) && lr.usedHeap == Sum(lr.classes, UsedHeap) && lr.retained == 0 &&
    (intersection ==> lr.classes != [])
  }

  /** The table entry of `l` yields a loader record: always for the
      difference, when it holds an untagged record for the intersection. */
  predicate HasKept(t: Table, l: string, intersection: bool)
  {
    l in t && (!intersection || exists k :: k in t[l] && !StartsWithTag(k))
  }

  /** The loader records after visiting the table entries `visited`: one
      per listed entry, in visiting order, with consecutive loader ids. */
  ghost predicate ListedUpTo(t: Table, intersection: bool, visited: set<string>, loaderRecords: seq<LoaderRecord>)
  {
    (forall i :: 0 <= i < |loaderRecords| ==>
       LoaderRecordOf(t, intersection, loaderRecords[i]) && loaderRecords[i].name in visited &&
       loaderRecords[i].loaderId == LoaderIdBase - 1 - i) &&
    (forall i, i' :: 0 <= i < i' < |loaderRecords| ==> loaderRecords[i].name != loaderRecords[i'].name) &&
    (forall l :: l in visited ==> (NameOccurs(loaderRecords, l) <==> HasKept(t, l, intersection)))
  }

  /** Each merged class record totals its class over the loader records. */
  ghost predicate Totals(loaderRecords: seq<LoaderRecord>, merged: map<string, ClassRecord>)
  {
    (forall c, m :: MergedCount(merged, c, m) == ClassTotal(loaderRecords, c, m)) &&
    (forall c :: c in merged <==> ClassOccurs(loaderRecords, c))
  }

  ghost predicate MergedUpTo(t: Table, intersection: bool, visited: set<string>,
                             loaderRecords: seq<LoaderRecord>, merged: map<string, ClassRecord>)
  {
    ListedUpTo(t, intersection, visited, loaderRecords) && Totals(loaderRecords, merged)
  }

  /** What appending one loader record does to the totals and lookups. */
  lemma LoaderAppended(loaderRecords: seq<LoaderRecord>, lr: LoaderRecord)
    ensures forall c, m :: ClassTotal(loaderRecords + [lr], c, m) == ClassTotal(loaderRecords, c, m) + NameSum(lr.classes, c, m)
    ensures forall m :: Overall(loaderRecords + [lr], m) == Overall(loaderRecords, m) + Running(lr.classes, m)
    ensures forall c :: ClassOccurs(loaderRecords + [lr], c) <==> ClassOccurs(loaderRecords, c) || NameIn(lr.classes, c)
    ensures forall l :: NameOccurs(loaderRecords + [lr], l) <==> NameOccurs(loaderRecords, l) || lr.name == l
  {
    var lrs := loaderRecords + [lr];
    assert lrs[..|lrs| - 1] == loaderRecords;
    assert lrs[|lrs| - 1] == lr;
    forall c | ClassOccurs(loaderRecords, c) ensures ClassOccurs(lrs, c) {
      var i :| 0 <= i < |loaderRecords| && NameIn(loaderRecords[i].classes, c);
      assert lrs[i] == loaderRecords[i];
    }
    forall c | ClassOccurs(lrs, c) && !NameIn(lr.classes, c) ensures ClassOccurs(loaderRecords, c) {
      var i :| 0 <= i < |lrs| && NameIn(lrs[i].classes, c);
      assert lrs[i] == loaderRecords[i];
    }
    forall l | NameOccurs(loaderRecords, l) ensures NameOccurs(lrs, l) {
      var i :| 0 <= i < |loaderRecords| && loaderRecords[i].name == l;
      assert lrs[i] == loaderRecords[i];
    }
    forall l | NameOccurs(lrs, l) && lr.name != l ensures NameOccurs(loaderRecords, l) {
      var i :| 0 <= i < |lrs| && lrs[i].name == l;
      assert lrs[i] == loaderRecords[i];
    }
  }

  lemma TotalsStep(loaderRecords: seq<LoaderRecord>, merged: map<string, ClassRecord>, lr: LoaderRecord,
                   merged': map<string, ClassRecord>)
    requires Totals(loaderRecords, merged) && MergedAfter(merged, merged', lr.classes)
    ensures Totals(loaderRecords + [lr], merged')
  {
    LoaderAppended(loaderRecords, lr);
  }

  lemma TotalsSkip(loaderRecords: seq<LoaderRecord>, merged: map<string, ClassRecord>, merged': map<string, ClassRecord>)
    requires Totals(loaderRecords, merged) && MergedAfter(merged, merged', [])
    ensures Totals(loaderRecords, merged')
  {
  }

  lemma ListedStep(t: Table, intersection: bool, visited: set<string>, loaderRecords: seq<LoaderRecord>,
                   l: string, records: seq<ClassRecord>)
    requires l in t && l !in visited && (!intersection || records != [])
    requires ListedUpTo(t, intersection, visited, loaderRecords)
    requires RecordsOf(t, l, intersection, records)
    ensures ListedUpTo(t, intersection, visited + {l},
                       loaderRecords + [LoaderRecord(l, LoaderIdBase - 1 - |loaderRecords|, records,
                                                     Sum(records, Objects), Sum(records, UsedHeap), 0)])
  {
    var lr := LoaderRecord(l, LoaderIdBase - 1 - |loaderRecords|, records, Sum(records, Objects), Sum(records, UsedHeap), 0);
    ListedRecords(t, intersection, visited, loaderRecords, lr);
    ListedDistinct(t, intersection, visited, loaderRecords, lr);
    ListedNames(t, intersection, visited, loaderRecords, lr);
  }

  lemma ListedRecords(t: Table, intersection: bool, visited: set<string>, loaderRecords: seq<LoaderRecord>, lr: LoaderRecord)
    requires ListedUpTo(t, intersection, visited, loaderRecords)
    requires LoaderRecordOf(t, intersection, lr) && lr.loaderId == LoaderIdBase - 1 - |loaderRecords|
    ensures forall i :: 0 <= i < |loaderRecords + [lr]| ==>
              LoaderRecordOf(t, intersection, (loaderRecords + [lr])[i]) && (loaderRecords + [lr])[i].name in visited + {lr.name} &&
              (loaderRecords + [lr])[i].loaderId == LoaderIdBase - 1 - i
  {
    var lrs := loaderRecords + [lr];
    forall i | 0 <= i < |lrs|
      ensures LoaderRecordOf(t, intersection, lrs[i]) && lrs[i].name in visited + {lr.name} && lrs[i].loaderId == LoaderIdBase - 1 - i
    {
      if i < |loaderRecords| {
        assert lrs[i] == loaderRecords[i];
      }
    }
  }

  lemma ListedDistinct(t: Table, intersection: bool, visited: set<string>, loaderRecords: seq<LoaderRecord>, lr: LoaderRecord)
    requires ListedUpTo(t, intersection, visited, loaderRecords)
    requires lr.name !in visited
    ensures forall i, i' :: 0 <= i < i' < |loaderRecords + [lr]| ==> (loaderRecords + [lr])[i].name != (loaderRecords + [lr])[i'].name
  {
    var lrs := loaderRecords + [lr];
    forall i, i' | 0 <= i < i' < |lrs| ensures lrs[i].name != lrs[i'].name {
      assert lrs[i] == loaderRecords[i];
      if i' < |loaderRecords| {
        assert lrs[i'] == loaderRecords[i'];
      }
    }
  }

  lemma ListedNames(t: Table, intersection: bool, visited: set<string>, loaderRecords: seq<LoaderRecord>, lr: LoaderRecord)
    requires lr.name in t && lr.name !in visited && (!intersection || lr.classes != [])
    requires ListedUpTo(t, intersection, visited, loaderRecords)
    requires KeysListed(t, lr.name, intersection, lr.classes)
    ensures forall l :: l in visited + {lr.name} ==> (NameOccurs(loaderRecords + [lr], l) <==> HasKept(t, l, intersection))
  {
    NamesAppended(loaderRecords, lr);
    var records := lr.classes;
    if intersection {
      assert NameIn(records, records[0].name) by {
        assert records[0].name == records[0].name;
      }
    }
  }

  lemma NamesAppended(loaderRecords: seq<LoaderRecord>, lr: LoaderRecord)
    ensures forall l :: NameOccurs(loaderRecords + [lr], l) <==> NameOccurs(loaderRecords, l) || lr.name == l
  {
    var lrs := loaderRecords + [lr];
    assert lrs[|lrs| - 1] == lr;
    forall l | NameOccurs(loaderRecords, l) ensures NameOccurs(lrs, l) {
      var i :| 0 <= i < |loaderRecords| && loaderRecords[i].name == l;
      assert lrs[i] == loaderRecords[i];
    }
    forall l | NameOccurs(lrs, l) && lr.name != l ensures NameOccurs(loaderRecords, l) {
      var i :| 0 <= i < |lrs| && lrs[i].name == l;
      assert lrs[i] == loaderRecords[i];
    }
  }

  lemma ListedSkip(t: Table, visited: set<string>, loaderRecords: seq<LoaderRecord>, l: string)
    requires l in t && l !in visited
    requires ListedUpTo(t, true, visited, loaderRecords)
    requires RecordsOf(t, l, true, [])
    ensures ListedUpTo(t, true, visited + {l}, loaderRecords)
  {
  }

  /** The loader records after visiting the entry of `l` with `records`:
      one more record, unless the intersection kept nothing there. */
  function Extended(loaderRecords: seq<LoaderRecord>, l: string, records: seq<ClassRecord>, intersection: bool): seq<LoaderRecord>
  {
    if !intersection || |records| > 0
    then loaderRecords + [LoaderRecord(l, LoaderIdBase - 1 - |loaderRecords|, records, Sum(records, Objects), Sum(records, UsedHeap), 0)]
    else loaderRecords
  }

  /** The invariant of the loader loop: the entries visited so far and
      those still to visit split the table's loaders; the visited ones
      yield the loader records and merged totals; the overall totals of
      the intersection add up the running subtotals. */
  ghost predicate MergeInvariant(t: Table, intersection: bool, remaining: set<string>, visited: set<string>,
                                 loaderRecords: seq<LoaderRecord>, merged: map<string, ClassRecord>,
                                 overallObjects: int, overallHeap: int, next: int, next0: int)
  {
    remaining + visited == t.Keys && remaining !! visited &&
    MergedUpTo(t, intersection, visited, loaderRecords, merged) &&
    overallObjects == (if intersection then Overall(loaderRecords, Objects) else 0) &&
    overallHeap == (if intersection then Overall(loaderRecords, UsedHeap) else 0) &&
    next <= next0 && MergedFresh(merged, next, next0)
  }

  /** One visit of the loader loop keeps its invariant. */
  lemma MergeVisit(t: Table, intersection: bool, remaining: set<string>, visited: set<string>, l: string,
                   loaderRecords: seq<LoaderRecord>, merged: map<string, ClassRecord>,
                   overallObjects: int, overallHeap: int, next: int, next0: int,
                   records: seq<ClassRecord>, runObjects: int, runHeap: int, merged': map<string, ClassRecord>, next': int,
                   loaderRecords': seq<LoaderRecord>, overallObjects': int, overallHeap': int)
    requires MergeInvariant(t, intersection, remaining, visited, loaderRecords, merged, overallObjects, overallHeap, next, next0)
    requires l in remaining
    requires RecordsOf(t, l, intersection, records) && MergedAfter(merged, merged', records)
    requires runObjects == (if intersection then Running(records, Objects) else 0)
    requires runHeap == (if intersection then Running(records, UsedHeap) else 0)
    requires next' <= next && MergedFresh(merged', next', next0)
    requires loaderRecords' == Extended(loaderRecords, l, records, intersection)
    requires overallObjects' == overallObjects + runObjects && overallHeap' == overallHeap + runHeap
    ensures MergeInvariant(t, intersection, remaining - {l}, visited + {l}, loaderRecords', merged', overallObjects', overallHeap', next', next0)
  {
    MoveVisited(remaining, visited, t.Keys, l);
    ExtendedListed(t, intersection, visited, loaderRecords, l, records);
    ExtendedTotals(loaderRecords, merged, l, records, intersection, merged');
    ExtendedOverall(loaderRecords, l, records, intersection, Objects);
    ExtendedOverall(loaderRecords, l, records, intersection, UsedHeap);
  }

  lemma ExtendedListed(t: Table, intersection: bool, visited: set<string>, loaderRecords: seq<LoaderRecord>,
                       l: string, records: seq<ClassRecord>)
    requires l in t && l !in visited
    requires ListedUpTo(t, intersection, visited, loaderRecords)
    requires RecordsOf(t, l, intersection, records)
    ensures ListedUpTo(t, intersection, visited + {l}, Extended(loaderRecords, l, records, intersection))
  {
    if !intersection || |records| > 0 {
      ListedStep(t, intersection, visited, loaderRecords, l, records);
    } else {
      ListedSkip(t, visited, loaderRecords, l);
    }
  }

  lemma ExtendedTotals(loaderRecords: seq<LoaderRecord>, merged: map<string, ClassRecord>, l: string,
                       records: seq<ClassRecord>, intersection: bool, merged': map<string, ClassRecord>)
    requires Totals(loaderRecords, merged) && MergedAfter(merged, merged', records)
    ensures Totals(Extended(loaderRecords, l, records, intersection), merged')
  {
    if !intersection || |records| > 0 {
      var lr := LoaderRecord(l, LoaderIdBase - 1 - |loaderRecords|, records, Sum(records, Objects), Sum(records, UsedHeap), 0);
      TotalsStep(loaderRecords, merged, lr, merged');
    } else {
      TotalsSkip(loaderRecords, merged, merged');
    }
  }

  lemma ExtendedOverall(loaderRecords: seq<LoaderRecord>, l: string, records: seq<ClassRecord>, intersection: bool, m: Measure)
    ensures Overall(Extended(loaderRecords, l, records, intersection), m) == Overall(loaderRecords, m) + Running(records, m)
  {
    if !intersection || |records| > 0 {
      var lr := LoaderRecord(l, LoaderIdBase - 1 - |loaderRecords|, records, Sum(records, Objects), Sum(records, UsedHeap), 0);
      OverallAppended(loaderRecords, lr, m);
    }
  }

  lemma OverallAppended(loaderRecords: seq<LoaderRecord>, lr: LoaderRecord, m: Measure)
    ensures Overall(loaderRecords + [lr], m) == Overall(loaderRecords, m) + Running(lr.classes, m)
  {
    assert (loaderRecords + [lr])[..|loaderRecords|] == loaderRecords;
  }

  /** The loop over the table's loader entries: each yields a loader record
      with the next loader id (for the intersection only when it kept a
      record), and the overall totals of the intersection add up the
      running subtotals. */
  method MergeTable(t: Table, next0: int, intersection: bool)
    returns (merged: map<string, ClassRecord>, loaderRecords: seq<LoaderRecord>, overallObjects: int, overallHeap: int, next: int)
    requires forall l, k :: l in t && k in t[l] ==> t[l][k].name == k
    ensures MergedUpTo(t, intersection, t.Keys, loaderRecords, merged)
    ensures overallObjects == (if intersection then Overall(loaderRecords, Objects) else 0)
    ensures overallHeap == (if intersection then Overall(loaderRecords, UsedHeap) else 0)
    ensures next <= next0 && MergedFresh(merged, next, next0)
  {
    var remaining := t.Keys;
    ghost var visited: set<string> := {};
    merged, loaderRecords, overallObjects, overallHeap, next := map[], [], 0, 0, next0;
    while remaining != {}
      invariant MergeInvariant(t, intersection, remaining, visited, loaderRecords, merged, overallObjects, overallHeap, next, next0)
      decreases remaining
    {
      var l := Pick(remaining);
      loaderRecords, merged, overallObjects, overallHeap, next :=
        VisitLoader(t, intersection, remaining, visited, l, loaderRecords, merged, overallObjects, overallHeap, next, next0);
      remaining := remaining - {l};
      visited := visited + {l};
    }
    assert visited == t.Keys;
  }

  /** The body of the loader loop: the entry of `l` is merged and, unless
      the intersection kept nothing there, yields the next loader record. */
  method VisitLoader(t: Table, intersection: bool, ghost remaining: set<string>, ghost visited: set<string>, l: string,
                     loaderRecords0: seq<LoaderRecord>, merged0: map<string, ClassRecord>,
                     overallObjects0: int, overallHeap0: int, next0: int, below: int)
    returns (loaderRecords: seq<LoaderRecord>, merged: map<string, ClassRecord>, overallObjects: int, overallHeap: int, next: int)
    requires forall l, k :: l in t && k in t[l] ==> t[l][k].name == k
    requires MergeInvariant(t, intersection, remaining, visited, loaderRecords0, merged0, overallObjects0, overallHeap0, next0, below)
    requires l in remaining
    ensures MergeInvariant(t, intersection, remaining - {l}, visited + {l}, loaderRecords, merged, overallObjects, overallHeap, next, below)
  {
    var records, objects, usedHeap, runObjects, runHeap;
    records, objects, usedHeap, runObjects, runHeap, merged, next := MergeLoader(t, l, intersection, merged0, next0, below);
    loaderRecords := loaderRecords0;
    if !intersection || |records| > 0 {
      loaderRecords := loaderRecords + [LoaderRecord(l, LoaderIdBase - 1 - |loaderRecords|, records, objects, usedHeap, 0)];
    }
    overallObjects, overallHeap := overallObjects0 + runObjects, overallHeap0 + runHeap;
    MergeVisit(t, intersection, remaining, visited, l, loaderRecords0, merged0, overallObjects0, overallHeap0, next0, below,
               records, runObjects, runHeap, merged, next, loaderRecords, overallObjects, overallHeap);
  }

  // ---------------------------------------------------------------------
  // The loops that fill the table
  // ---------------------------------------------------------------------

  /** The first two loops of both operations: for each loader record the
      loader's map is fetched or created, then its class records are added. */
  method Accumulate(start: Tally, loaders: seq<LoaderRecord>, negate: bool, prefix: string) returns (r: Tally)
    ensures r == AddLoaders(start, loaders, negate, prefix)
  {
    r := start;
    for i := 0 to |loaders|
      invariant r == AddLoaders(start, loaders[..i], negate, prefix)
    {
      var lr := loaders[i];
      assert loaders[..i + 1][..i] == loaders[..i];
      var table := r.table;
      if lr.name !in table {
        table := table[lr.name := map[]];
      }
      assert Tally(table, r.next) == Touch(r, lr.name);
      r := AccumulateClasses(Tally(table, r.next), lr.name, lr.classes, negate, prefix);
    }
    assert loaders[..|loaders|] == loaders;
  }

  /** The class loop: each class record is added (subtracted when `negate`
      holds) into the record keyed by `prefix` and its name, created with
      the next id when missing. */
  method AccumulateClasses(start: Tally, l: string, classes: seq<ClassRecord>, negate: bool, prefix: string) returns (r: Tally)
    requires l in start.table
    ensures r == AddClasses(start, l, classes, negate, prefix)
  {
    r := start;
    for j := 0 to |classes|
      invariant l in r.table
      invariant r == AddClasses(start, l, classes[..j], negate, prefix)
    {
      assert classes[..j + 1][..j] == classes[..j];
      var c := classes[j];
      r := AddRecord(r, l, prefix + c.name, Signed(negate, c.objects), Signed(negate, c.usedHeap));
    }
    assert classes[..|classes|] == classes;
  }

  /** One step of the inner loop: the record under `key` fetched or
      created with the next id, then its counts increased. */
  method AddRecord(s: Tally, l: string, key: string, objects: int, usedHeap: int) returns (r: Tally)
    requires l in s.table
    ensures r == Add(s, l, key, objects, usedHeap)
  {
    var next := s.next;
    var inner := s.table[l];
    if key !in inner {
      next := next - 1;
      inner := inner[key := ClassRecord(key, next, 0, 0, 0)];
    }
    var rec := inner[key];
    var updated := rec.(objects := rec.objects + objects, usedHeap := rec.usedHeap + usedHeap);
    inner := inner[key := updated];
    assert inner == s.table[l][key := updated];
    r := Tally(s.table[l := inner], next);
  }

  /** The second loop of the intersection: each record of the other
      histogram whose tagged counterpart has the same positive object
      count puts a fresh record under its plain name. */
  method MatchAnother(start: Tally, loaders: seq<LoaderRecord>) returns (r: Tally)
    ensures r == MatchLoaders(start, loaders)
  {
    r := start;
    for i := 0 to |loaders|
      invariant r == MatchLoaders(start, loaders[..i])
    {
      var lr := loaders[i];
      assert loaders[..i + 1][..i] == loaders[..i];
      ghost var touched := Touch(r, lr.name);
      if lr.name !in r.table {
        r := r.(table := r.table[lr.name := map[]]);
      } else {
        assert r.table == touched.table;
      }
      assert r == touched;
      r := MatchClassesOf(r, lr.name, lr.classes);
    }
    assert loaders[..|loaders|] == loaders;
  }

  /** The inner loop of the intersection's second pass, over one loader. */
  method MatchClassesOf(start: Tally, l: string, classes: seq<ClassRecord>) returns (r: Tally)
    requires l in start.table
    ensures r == MatchClasses(start, l, classes)
  {
    r := start;
    for j := 0 to |classes|
      invariant l in r.table
      invariant r == MatchClasses(start, l, classes[..j])
    {
      var c := classes[j];
      assert classes[..j + 1][..j] == classes[..j];
      var inner := r.table[l];
      var tagged := Tag + c.name;
      if tagged in inner && inner[tagged].objects > 0 && inner[tagged].objects == c.objects {
        var d := inner[tagged];
        r := Tally(r.table[l := inner[c.name := ClassRecord(c.name, r.next - 1, d.objects, d.usedHeap + c.usedHeap, 0)]], r.next - 1);
      }
    }
    assert classes[..|classes|] == classes;
  }

  /** `new ArrayList(map.values())`: the merged class records, each once. */
  method ValuesOf(merged: map<string, ClassRecord>) returns (records: seq<ClassRecord>)
    requires forall c :: c in merged ==> merged[c].name == c
    ensures forall c :: NameIn(records, c) <==> c in merged
    ensures forall j :: 0 <= j < |records| ==> records[j].name in merged && records[j] == merged[records[j].name]
    ensures forall j, j' :: 0 <= j < j' < |records| ==> records[j].name != records[j'].name
  {
    var remaining := merged.Keys;
    records := [];
    while remaining != {}
      invariant remaining <= merged.Keys
      invariant forall c :: NameIn(records, c) <==> c in merged && c !in remaining
      invariant forall j :: 0 <= j < |records| ==> records[j].name in merged && records[j] == merged[records[j].name]
      invariant forall j, j' :: 0 <= j < j' < |records| ==> records[j].name != records[j'].name
      decreases remaining
    {
      var c := Pick(remaining);
      NameAppended(records, merged[c]);
      records := records + [merged[c]];
      remaining := remaining - {c};
    }
  }

  lemma NameAppended(records: seq<ClassRecord>, rec: ClassRecord)
    ensures forall k :: NameIn(records + [rec], k) <==> NameIn(records, k) || rec.name == k
  {
    var r := records + [rec];
    assert r[|r| - 1] == rec;
    forall k | NameIn(records, k) ensures NameIn(r, k) {
      var j :| 0 <= j < |records| && records[j].name == k;
      assert r[j] == records[j];
    }
    forall k | NameIn(r, k) && rec.name != k ensures NameIn(records, k) {
      var j :| 0 <= j < |r| && r[j].name == k;
      assert r[j] == records[j];
    }
  }

  // ---------------------------------------------------------------------
  // Class totals of the difference
  // ---------------------------------------------------------------------

  lemma {:induction false} KeySumUnprefixed(classes: seq<ClassRecord>, k: string, m: Measure)
    ensures KeySum(classes, "", k, m) == NameSum(classes, k, m)
  {
    if classes != [] {
      KeySumUnprefixed(classes[..|classes| - 1], k, m);
      assert "" + classes[|classes| - 1].name == classes[|classes| - 1].name;
    }
  }

  /** The sum, over the names of the loader records `named`, of what the
      input loader records of that name hold of class `k`. */
  function NamesSum(loaders: seq<LoaderRecord>, named: seq<LoaderRecord>, k: string, m: Measure): int
  {
    if named == [] then 0
    else NamesSum(loaders, named[..|named| - 1], k, m) + LoaderSum(loaders, named[|named| - 1].name, "", k, m)
  }

  /** `v` for each loader record of `named` that is named `x`. */
  function Indicator(named: seq<LoaderRecord>, x: string, v: int): int
  {
    if named == [] then 0
    else Indicator(named[..|named| - 1], x, v) + (if named[|named| - 1].name == x then v else 0)
  }

  predicate DistinctNames(named: seq<LoaderRecord>) {
    forall i, i' :: 0 <= i < i' < |named| ==> named[i].name != named[i'].name
  }

  lemma {:induction false} IndicatorNone(named: seq<LoaderRecord>, x: string, v: int)
    requires !NameOccurs(named, x)
    ensures Indicator(named, x, v) == 0
  {
    if named != [] {
      var init := named[..|named| - 1];
      forall i | 0 <= i < |init| ensures init[i].name != x {
        assert init[i] == named[i];
      }
      IndicatorNone(init, x, v);
    }
  }

  lemma {:induction false} IndicatorOnce(named: seq<LoaderRecord>, x: string, v: int)
    requires DistinctNames(named) && NameOccurs(named, x)
    ensures Indicator(named, x, v) == v
  {
    var init := named[..|named| - 1];
    var last := named[|named| - 1];
    assert DistinctNames(init) by {
      forall i, i' | 0 <= i < i' < |init| ensures init[i].name != init[i'].name {
        assert init[i] == named[i] && init[i'] == named[i'];
      }
    }
    if last.name == x {
      forall i | 0 <= i < |init| ensures init[i].name != x {
        assert init[i] == named[i];
      }
      IndicatorNone(init, x, v);
    } else {
      var i :| 0 <= i < |named| && named[i].name == x;
      assert init[i] == named[i];
      IndicatorOnce(init, x, v);
    }
  }

  lemma {:induction false} NamesSumSplit(loaders: seq<LoaderRecord>, named: seq<LoaderRecord>, k: string, m: Measure)
    requires loaders != []
    ensures NamesSum(loaders, named, k, m) ==
            NamesSum(loaders[..|loaders| - 1], named, k, m) +
            Indicator(named, loaders[|loaders| - 1].name, KeySum(loaders[|loaders| - 1].classes, "", k, m))
  {
    if named != [] {
      NamesSumSplit(loaders, named[..|named| - 1], k, m);
    }
  }

  /** Summing over a duplicate-free list that names every input loader
      record counts each input class record once. */
  lemma {:induction false} NamesSumTotal(loaders: seq<LoaderRecord>, named: seq<LoaderRecord>, k: string, m: Measure)
    requires DistinctNames(named)
    requires forall i :: 0 <= i < |loaders| ==> NameOccurs(named, loaders[i].name)
    ensures NamesSum(loaders, named, k, m) == ClassTotal(loaders, k, m)
  {
    if loaders == [] {
      NamesSumEmpty(named, k, m);
    } else {
      var init := loaders[..|loaders| - 1];
      var last := loaders[|loaders| - 1];
      forall i | 0 <= i < |init| ensures NameOccurs(named, init[i].name) {
        assert init[i] == loaders[i];
      }
      NamesSumTotal(init, named, k, m);
      NamesSumSplit(loaders, named, k, m);
      IndicatorOnce(named, last.name, KeySum(last.classes, "", k, m));
      KeySumUnprefixed(last.classes, k, m);
    }
  }

  lemma {:induction false} NamesSumEmpty(named: seq<LoaderRecord>, k: string, m: Measure)
    ensures NamesSum([], named, k, m) == 0
  {
    if named != [] {
      NamesSumEmpty(named[..|named| - 1], k, m);
    }
  }

  /** When every output loader record holds, for class `k`, the difference
      of what the two inputs hold under its name, the output total of `k`
      is the difference of the sums over the output names. */
  lemma {:induction false} ClassTotalDiff(h: seq<LoaderRecord>, base: seq<LoaderRecord>, named: seq<LoaderRecord>, k: string, m: Measure)
    requires forall i :: 0 <= i < |named| ==>
               NameSum(named[i].classes, k, m) == LoaderSum(h, named[i].name, "", k, m) - LoaderSum(base, named[i].name, "", k, m)
    ensures ClassTotal(named, k, m) == NamesSum(h, named, k, m) - NamesSum(base, named, k, m)
  {
    if named != [] {
      var init := named[..|named| - 1];
      forall i | 0 <= i < |init|
        ensures NameSum(init[i].classes, k, m) == LoaderSum(h, init[i].name, "", k, m) - LoaderSum(base, init[i].name, "", k, m)
      {
        assert init[i] == named[i];
      }
      ClassTotalDiff(h, base, init, k, m);
    }
  }

  lemma {:induction false} KeyOccursUnprefixed(classes: seq<ClassRecord>, k: string)
    ensures KeyOccurs(classes, "", k) <==> NameIn(classes, k)
  {
    forall j | 0 <= j < |classes| ensures "" + classes[j].name == classes[j].name {
    }
  }

  // ---------------------------------------------------------------------
  // The difference
  // ---------------------------------------------------------------------

  /** The table after the two loops of the difference. */
  function DiffTally(h: seq<LoaderRecord>, baseline: seq<LoaderRecord>): Tally
  {
    AddLoaders(AddLoaders(Tally(map[], ClassIdBase), h, false, ""), baseline, true, "")
  }

  /** Each table record holds what `h` has minus what `baseline` has of its
      class under its loader, and the table has an entry exactly for what
      occurs in either. */
  lemma DiffTallyAt(h: seq<LoaderRecord>, baseline: seq<LoaderRecord>, l: string, k: string, m: Measure)
    ensures Count(DiffTally(h, baseline).table, l, k, m) == LoaderSum(h, l, "", k, m) - LoaderSum(baseline, l, "", k, m)
    ensures l in DiffTally(h, baseline).table <==> NameOccurs(h, l) || NameOccurs(baseline, l)
    ensures Has(DiffTally(h, baseline).table, l, k) <==> PairOccurs(h, l, "", k) || PairOccurs(baseline, l, "", k)
  {
    var t0 := Tally(map[], ClassIdBase);
    var t1 := AddLoaders(t0, h, false, "");
    AddLoadersCount(t0, h, false, "", l, k, m);
    AddLoadersCount(t1, baseline, true, "", l, k, m);
    AddLoadersLoaders(t0, h, false, "", l);
    AddLoadersLoaders(t1, baseline, true, "", l);
    AddLoadersKeys(t0, h, false, "", l, k);
    AddLoadersKeys(t1, baseline, true, "", l, k);
  }

  lemma DiffTallyFresh(h: seq<LoaderRecord>, baseline: seq<LoaderRecord>)
    ensures DiffTally(h, baseline).next <= ClassIdBase
    ensures Fresh(DiffTally(h, baseline).table, DiffTally(h, baseline).next, ClassIdBase)
  {
    var t0 := Tally(map[], ClassIdBase);
    AddLoadersFresh(t0, h, false, "");
    AddLoadersFresh(AddLoaders(t0, h, false, ""), baseline, true, "");
  }

  function Abs(x: int): int {
    if x < 0 then -x else x
  }

  /** The loader records of the difference: one per loader name of either
      input, with consecutive ids below the loader id base; each holds one
      record per class either input has under that loader, whose object
      count and used heap are the first input's minus the baseline's; the
      loader totals sum its records. */
  ghost predicate DiffLoaders(h: seq<LoaderRecord>, baseline: seq<LoaderRecord>, loaderRecords: seq<LoaderRecord>)
  {
    DistinctNames(loaderRecords) &&
    (forall l :: NameOccurs(loaderRecords, l) <==> NameOccurs(h, l) || NameOccurs(baseline, l)) &&
    (forall i :: 0 <= i < |loaderRecords| ==>
       loaderRecords[i].loaderId == LoaderIdBase - 1 - i && loaderRecords[i].retained == 0 &&
       loaderRecords[i].objects == Sum(loaderRecords[i].classes, Objects) &&
       loaderRecords[i].usedHeap == Sum(loaderRecords[i].classes, UsedHeap)) &&
    (forall i, c :: 0 <= i < |loaderRecords| ==>
       (NameIn(loaderRecords[i].classes, c) <==>
        PairOccurs(h, loaderRecords[i].name, "", c) || PairOccurs(baseline, loaderRecords[i].name, "", c))) &&
    (forall i, j, j' :: 0 <= i < |loaderRecords| && 0 <= j < j' < |loaderRecords[i].classes| ==>
       loaderRecords[i].classes[j].name != loaderRecords[i].classes[j'].name) &&
    (forall i, j, m :: 0 <= i < |loaderRecords| && 0 <= j < |loaderRecords[i].classes| ==>
       Value(loaderRecords[i].classes[j], m) ==
         LoaderSum(h, loaderRecords[i].name, "", loaderRecords[i].classes[j].name, m) -
         LoaderSum(baseline, loaderRecords[i].name, "", loaderRecords[i].classes[j].name, m)) &&
    (forall i, j :: 0 <= i < |loaderRecords| && 0 <= j < |loaderRecords[i].classes| ==>
       loaderRecords[i].classes[j].retained == 0 && loaderRecords[i].classes[j].classId < ClassIdBase)
  }

  /** The class records of the difference: one per class name of either
      input, holding the first input's total minus the baseline's, with
      distinct ids below the class id base. */
  ghost predicate DiffClasses(h: seq<LoaderRecord>, baseline: seq<LoaderRecord>, classRecords: seq<ClassRecord>)
  {
    (forall j, j' :: 0 <= j < j' < |classRecords| ==> classRecords[j].name != classRecords[j'].name) &&
    (forall c :: NameIn(classRecords, c) <==> ClassOccurs(h, c) || ClassOccurs(baseline, c)) &&
    (forall j, m :: 0 <= j < |classRecords| ==>
       Value(classRecords[j], m) == ClassTotal(h, classRecords[j].name, m) - ClassTotal(baseline, classRecords[j].name, m)) &&
    (forall j :: 0 <= j < |classRecords| ==> classRecords[j].retained == 0 && classRecords[j].classId < ClassIdBase) &&
    (forall j, j' :: 0 <= j < |classRecords| && 0 <= j' < |classRecords| && classRecords[j].classId == classRecords[j'].classId ==> j == j')
  }

  lemma DiffLoadersHold(h: seq<LoaderRecord>, baseline: seq<LoaderRecord>, loaderRecords: seq<LoaderRecord>)
    requires ListedUpTo(DiffTally(h, baseline).table, false, DiffTally(h, baseline).table.Keys, loaderRecords)
    ensures DiffLoaders(h, baseline, loaderRecords)
  {
    var t := DiffTally(h, baseline).table;
    DiffTallyFresh(h, baseline);
    forall l ensures NameOccurs(loaderRecords, l) <==> NameOccurs(h, l) || NameOccurs(baseline, l) {
      DiffTallyAt(h, baseline, l, "", Objects);
      if NameOccurs(loaderRecords, l) {
        var i :| 0 <= i < |loaderRecords| && loaderRecords[i].name == l;
        assert LoaderRecordOf(t, false, loaderRecords[i]);
      }
    }
    forall i | 0 <= i < |loaderRecords|
      ensures DiffLoaderHolds(h, baseline, loaderRecords[i])
    {
      DiffLoaderRecord(h, baseline, loaderRecords[i]);
    }
  }

  /** What the difference promises of one of its loader records. */
  ghost predicate DiffLoaderHolds(h: seq<LoaderRecord>, baseline: seq<LoaderRecord>, lr: LoaderRecord)
  {
    lr.retained == 0 && lr.objects == Sum(lr.classes, Objects) && lr.usedHeap == Sum(lr.classes, UsedHeap) &&
    (forall c :: NameIn(lr.classes, c) <==> PairOccurs(h, lr.name, "", c) || PairOccurs(baseline, lr.name, "", c)) &&
    (forall j, j' :: 0 <= j < j' < |lr.classes| ==> lr.classes[j].name != lr.classes[j'].name) &&
    (forall j, m :: 0 <= j < |lr.classes| ==>
       Value(lr.classes[j], m) == LoaderSum(h, lr.name, "", lr.classes[j].name, m) - LoaderSum(baseline, lr.name, "", lr.classes[j].name, m)) &&
    (forall j :: 0 <= j < |lr.classes| ==> lr.classes[j].retained == 0 && lr.classes[j].classId < ClassIdBase)
  }

  lemma DiffLoaderRecord(h: seq<LoaderRecord>, baseline: seq<LoaderRecord>, lr: LoaderRecord)
    requires LoaderRecordOf(DiffTally(h, baseline).table, false, lr)
    ensures lr.retained == 0 && lr.objects == Sum(lr.classes, Objects) && lr.usedHeap == Sum(lr.classes, UsedHeap)
    ensures forall c :: NameIn(lr.classes, c) <==> PairOccurs(h, lr.name, "", c) || PairOccurs(baseline, lr.name, "", c)
    ensures forall j, j' :: 0 <= j < j' < |lr.classes| ==> lr.classes[j].name != lr.classes[j'].name
    ensures forall j, m :: 0 <= j < |lr.classes| ==>
              Value(lr.classes[j], m) == LoaderSum(h, lr.name, "", lr.classes[j].name, m) - LoaderSum(baseline, lr.name, "", lr.classes[j].name, m)
    ensures forall j :: 0 <= j < |lr.classes| ==> lr.classes[j].retained == 0 && lr.classes[j].classId < ClassIdBase
    ensures DiffLoaderHolds(h, baseline, lr)
  {
    forall c ensures NameIn(lr.classes, c) <==> PairOccurs(h, lr.name, "", c) || PairOccurs(baseline, lr.name, "", c) {
      DiffLoaderClasses(h, baseline, lr, c);
    }
    forall j, m | 0 <= j < |lr.classes|
      ensures Value(lr.classes[j], m) == LoaderSum(h, lr.name, "", lr.classes[j].name, m) - LoaderSum(baseline, lr.name, "", lr.classes[j].name, m)
    {
      DiffLoaderValues(h, baseline, lr, j, m);
    }
    forall j | 0 <= j < |lr.classes| ensures lr.classes[j].retained == 0 && lr.classes[j].classId < ClassIdBase {
      DiffLoaderValues(h, baseline, lr, j, Objects);
    }
    RecordNamesDistinct(DiffTally(h, baseline).table, false, lr);
  }

  /** A loader record of the difference lists the classes either input
      has under its loader. */
  lemma DiffLoaderClasses(h: seq<LoaderRecord>, baseline: seq<LoaderRecord>, lr: LoaderRecord, c: string)
    requires LoaderRecordOf(DiffTally(h, baseline).table, false, lr)
    ensures NameIn(lr.classes, c) <==> PairOccurs(h, lr.name, "", c) || PairOccurs(baseline, lr.name, "", c)
  {
    DiffTallyAt(h, baseline, lr.name, c, Objects);
  }

  /** A class record under a loader record of the difference holds the
      first input's figure minus the baseline's, with a synthetic id. */
  lemma DiffLoaderValues(h: seq<LoaderRecord>, baseline: seq<LoaderRecord>, lr: LoaderRecord, j: int, m: Measure)
    requires LoaderRecordOf(DiffTally(h, baseline).table, false, lr) && 0 <= j < |lr.classes|
    ensures Value(lr.classes[j], m) ==
              LoaderSum(h, lr.name, "", lr.classes[j].name, m) - LoaderSum(baseline, lr.name, "", lr.classes[j].name, m)
    ensures lr.classes[j].retained == 0 && lr.classes[j].classId < ClassIdBase
  {
    var t := DiffTally(h, baseline).table;
    DiffTallyFresh(h, baseline);
    assert RecordsFrom(t, lr.name, lr.classes);
    DiffTallyAt(h, baseline, lr.name, lr.classes[j].name, m);
  }

  lemma RecordNamesDistinct(t: Table, intersection: bool, lr: LoaderRecord)
    requires LoaderRecordOf(t, intersection, lr)
    ensures forall j, j' :: 0 <= j < j' < |lr.classes| ==> lr.classes[j].name != lr.classes[j'].name
  {
    assert RecordsFrom(t, lr.name, lr.classes);
  }

  lemma DiffClassesHold(h: seq<LoaderRecord>, baseline: seq<LoaderRecord>, loaderRecords: seq<LoaderRecord>,
                        merged: map<string, ClassRecord>, next: int, classRecords: seq<ClassRecord>)
    requires MergedUpTo(DiffTally(h, baseline).table, false, DiffTally(h, baseline).table.Keys, loaderRecords, merged)
    requires DiffLoaders(h, baseline, loaderRecords)
    requires MergedFresh(merged, next, DiffTally(h, baseline).next)
    requires forall c :: NameIn(classRecords, c) <==> c in merged
    requires forall j :: 0 <= j < |classRecords| ==> classRecords[j].name in merged && classRecords[j] == merged[classRecords[j].name]
    requires forall j, j' :: 0 <= j < j' < |classRecords| ==> classRecords[j].name != classRecords[j'].name
    ensures DiffClasses(h, baseline, classRecords)
  {
    var t := DiffTally(h, baseline).table;
    DiffTallyFresh(h, baseline);
    forall c ensures ClassOccurs(loaderRecords, c) <==> ClassOccurs(h, c) || ClassOccurs(baseline, c) {
      DiffClassOccurs(h, baseline, loaderRecords, c);
    }
    forall j, m | 0 <= j < |classRecords|
      ensures Value(classRecords[j], m) == ClassTotal(h, classRecords[j].name, m) - ClassTotal(baseline, classRecords[j].name, m)
    {
      var c := classRecords[j].name;
      assert MergedCount(merged, c, m) == Value(classRecords[j], m);
      forall i | 0 <= i < |loaderRecords|
        ensures NameSum(loaderRecords[i].classes, c, m) ==
                LoaderSum(h, loaderRecords[i].name, "", c, m) - LoaderSum(baseline, loaderRecords[i].name, "", c, m)
      {
        assert LoaderRecordOf(t, false, loaderRecords[i]);
        DiffTallyAt(h, baseline, loaderRecords[i].name, c, m);
      }
      ClassTotalDiff(h, baseline, loaderRecords, c, m);
      forall i | 0 <= i < |h| ensures NameOccurs(loaderRecords, h[i].name) {
        assert NameOccurs(h, h[i].name);
      }
      forall i | 0 <= i < |baseline| ensures NameOccurs(loaderRecords, baseline[i].name) {
        assert NameOccurs(baseline, baseline[i].name);
      }
      NamesSumTotal(h, loaderRecords, c, m);
      NamesSumTotal(baseline, loaderRecords, c, m);
    }
    forall j, j' | 0 <= j < |classRecords| && 0 <= j' < |classRecords| && classRecords[j].classId == classRecords[j'].classId
      ensures j == j'
    {
      assert classRecords[j].name == classRecords[j'].name;
    }
  }

  /** A class occurs in the loader records of the difference exactly when
      it occurs in either input. */
  lemma DiffClassOccurs(h: seq<LoaderRecord>, baseline: seq<LoaderRecord>, loaderRecords: seq<LoaderRecord>, c: string)
    requires DiffLoaders(h, baseline, loaderRecords)
    ensures ClassOccurs(loaderRecords, c) <==> ClassOccurs(h, c) || ClassOccurs(baseline, c)
  {
    if ClassOccurs(loaderRecords, c) {
      var i :| 0 <= i < |loaderRecords| && NameIn(loaderRecords[i].classes, c);
      var l := loaderRecords[i].name;
      if PairOccurs(h, l, "", c) {
        var i' :| 0 <= i' < |h| && h[i'].name == l && KeyOccurs(h[i'].classes, "", c);
        KeyOccursUnprefixed(h[i'].classes, c);
      } else {
        var i' :| 0 <= i' < |baseline| && baseline[i'].name == l && KeyOccurs(baseline[i'].classes, "", c);
        KeyOccursUnprefixed(baseline[i'].classes, c);
      }
    }
    if ClassOccurs(h, c) {
      var i' :| 0 <= i' < |h| && NameIn(h[i'].classes, c);
      KeyOccursUnprefixed(h[i'].classes, c);
      assert PairOccurs(h, h[i'].name, "", c);
      assert NameOccurs(h, h[i'].name);
      var i :| 0 <= i < |loaderRecords| && loaderRecords[i].name == h[i'].name;
      assert NameIn(loaderRecords[i].classes, c);
    }
    if ClassOccurs(baseline, c) {
      var i' :| 0 <= i' < |baseline| && NameIn(baseline[i'].classes, c);
      KeyOccursUnprefixed(baseline[i'].classes, c);
      assert PairOccurs(baseline, baseline[i'].name, "", c);
      assert NameOccurs(baseline, baseline[i'].name);
      var i :| 0 <= i < |loaderRecords| && loaderRecords[i].name == baseline[i'].name;
      assert NameIn(loaderRecords[i].classes, c);
    }
  }

  /** Why an operation on two histograms fails: the loader records of one
      of them are null, which the source dereferences. */
  datatype HistogramError = NullRecords

  /** `diffWithBaseline`: the histogram of what `h` has minus what
      `baseline` has, per loader and class and per class overall; its
      totals are the absolute differences of the two histograms' totals. */
  method DiffWithBaseline(h: Histogram, baseline: Histogram) returns (r: Result<Histogram, HistogramError>)
    ensures r.Failure? <==> h.loaderRecords.None? || baseline.loaderRecords.None?
    ensures r.Success? ==>
      r.value.name == "Histogram difference between " + h.name + " and " + baseline.name &&
      r.value.objects == Abs(h.objects - baseline.objects) &&
      r.value.usedHeap == Abs(h.usedHeap - baseline.usedHeap) &&
      r.value.retained == Abs(h.retained - baseline.retained) &&
      !r.value.isDefault &&
      r.value.loaderRecords.Some? && r.value.classRecords.Some? &&
      DiffLoaders(h.loaderRecords.value, baseline.loaderRecords.value, r.value.loaderRecords.value) &&
      DiffClasses(h.loaderRecords.value, baseline.loaderRecords.value, r.value.classRecords.value)
  {
    if h.loaderRecords.None? || baseline.loaderRecords.None? {
      return Failure(NullRecords);
    }
    var mine, theirs := h.loaderRecords.value, baseline.loaderRecords.value;
    var t := Accumulate(Tally(map[], ClassIdBase), mine, false, "");
    t := Accumulate(t, theirs, true, "");
    DiffTallyFresh(mine, theirs);
    var merged, loaderRecords, _, _, next := MergeTable(t.table, t.next, false);
    var classRecords := ValuesOf(merged);
    DiffLoadersHold(mine, theirs, loaderRecords);
    DiffClassesHold(mine, theirs, loaderRecords, merged, next, classRecords);
    r := Success(Histogram("Histogram difference between " + h.name + " and " + baseline.name,
                           Some(classRecords), Some(loaderRecords),
                           Abs(h.objects - baseline.objects), Abs(h.usedHeap - baseline.usedHeap),
                           Abs(h.retained - baseline.retained), false));
  }

  // ---------------------------------------------------------------------
  // The intersection
  // ---------------------------------------------------------------------

  lemma {:induction false} KeySumTagged(classes: seq<ClassRecord>, k: string, m: Measure)
    ensures KeySum(classes, Tag, Tag + k, m) == NameSum(classes, k, m)
  {
    if classes != [] {
      KeySumTagged(classes[..|classes| - 1], k, m);
      TagInjective(classes[|classes| - 1].name, k);
    }
  }

  /** Tagging every label of the first histogram keeps its sums apart but
      unchanged. */
  lemma {:induction false} LoaderSumTagged(loaders: seq<LoaderRecord>, l: string, k: string, m: Measure)
    ensures LoaderSum(loaders, l, Tag, Tag + k, m) == LoaderSum(loaders, l, "", k, m)
  {
    if loaders != [] {
      var last := loaders[|loaders| - 1];
      LoaderSumTagged(loaders[..|loaders| - 1], l, k, m);
      KeySumTagged(last.classes, k, m);
      KeySumUnprefixed(last.classes, k, m);
    }
  }

  /** Every key the first pass of the intersection creates is tagged. */
  lemma TaggedKeys(loaders: seq<LoaderRecord>, l: string, k: string)
    ensures PairOccurs(loaders, l, Tag, k) ==> StartsWithTag(k)
  {
    if PairOccurs(loaders, l, Tag, k) {
      var i :| 0 <= i < |loaders| && loaders[i].name == l && KeyOccurs(loaders[i].classes, Tag, k);
      var j :| 0 <= j < |loaders[i].classes| && Tag + loaders[i].classes[j].name == k;
      TagInjective(loaders[i].classes[j].name, "");
    }
  }

  /** The table after the two loops of the intersection. */
  function IntersectTally(h: seq<LoaderRecord>, another: seq<LoaderRecord>): Tally
  {
    MatchLoaders(AddLoaders(Tally(map[], ClassIdBase), h, false, Tag), another)
  }

  /** The record of the other histogram that decides class `k` under
      loader `l`: the last one whose object count equals the first
      histogram's positive total for that pair. */
  function Found(h: seq<LoaderRecord>, another: seq<LoaderRecord>, l: string, k: string): Option<ClassRecord>
  {
    LastMatch(another, l, k, LoaderSum(h, l, "", k, Objects))
  }

  /** A deciding record exists exactly when the first histogram holds a
      positive number of objects of the class under the loader and some
      record of the other histogram under that loader has that class and
      exactly that number of objects. */
  lemma {:induction false} FoundExactly(h: seq<LoaderRecord>, another: seq<LoaderRecord>, l: string, k: string)
    ensures Found(h, another, l, k).Some? <==>
            LoaderSum(h, l, "", k, Objects) > 0 &&
            exists i, j :: 0 <= i < |another| && 0 <= j < |another[i].classes| && another[i].name == l &&
                           another[i].classes[j].name == k && another[i].classes[j].objects == LoaderSum(h, l, "", k, Objects)
  {
    LastMatchExactly(another, l, k, LoaderSum(h, l, "", k, Objects));
  }

  lemma {:induction false} LastInExactly(classes: seq<ClassRecord>, k: string, count: int)
    ensures LastIn(classes, k, count).Some? <==>
            count > 0 && exists j :: 0 <= j < |classes| && classes[j].name == k && classes[j].objects == count
  {
    if classes != [] {
      var init := classes[..|classes| - 1];
      LastInExactly(init, k, count);
      if LastIn(init, k, count).Some? {
        var j :| 0 <= j < |init| && init[j].name == k && init[j].objects == count;
        assert classes[j] == init[j];
      }
      if count > 0 && (exists j :: 0 <= j < |classes| && classes[j].name == k && classes[j].objects == count) {
        var j :| 0 <= j < |classes| && classes[j].name == k && classes[j].objects == count;
        if j < |init| {
          assert init[j] == classes[j];
        }
      }
    }
  }

  lemma {:induction false} LastMatchExactly(loaders: seq<LoaderRecord>, l: string, k: string, count: int)
    ensures LastMatch(loaders, l, k, count).Some? <==>
            count > 0 &&
            exists i, j :: 0 <= i < |loaders| && 0 <= j < |loaders[i].classes| && loaders[i].name == l &&
                           loaders[i].classes[j].name == k && loaders[i].classes[j].objects == count
  {
    if loaders != [] {
      var init := loaders[..|loaders| - 1];
      var lr := loaders[|loaders| - 1];
      LastMatchExactly(init, l, k, count);
      LastInExactly(lr.classes, k, count);
      if LastMatch(init, l, k, count).Some? {
        var i, j :| 0 <= i < |init| && 0 <= j < |init[i].classes| && init[i].name == l &&
                    init[i].classes[j].name == k && init[i].classes[j].objects == count;
        assert loaders[i] == init[i];
      }
      if lr.name == l && LastIn(lr.classes, k, count).Some? {
        var j :| 0 <= j < |lr.classes| && lr.classes[j].name == k && lr.classes[j].objects == count;
        assert loaders[|loaders| - 1] == lr;
      }
      if count > 0 && exists i, j :: 0 <= i < |loaders| && 0 <= j < |loaders[i].classes| && loaders[i].name == l &&
                                     loaders[i].classes[j].name == k && loaders[i].classes[j].objects == count {
        var i, j :| 0 <= i < |loaders| && 0 <= j < |loaders[i].classes| && loaders[i].name == l &&
                    loaders[i].classes[j].name == k && loaders[i].classes[j].objects == count;
        if i < |init| {
          assert init[i] == loaders[i];
        }
      }
    }
  }

  /** Each untagged table record of the intersection exists exactly when a
      deciding record exists, and then holds that record's object count
      and the sum of both histograms' used heaps. */
  lemma IntersectTallyAt(h: seq<LoaderRecord>, another: seq<LoaderRecord>, l: string, k: string, m: Measure)
    requires Untagged(another)
    requires !StartsWithTag(k)
    ensures l in IntersectTally(h, another).table <==> NameOccurs(h, l) || NameOccurs(another, l)
    ensures Has(IntersectTally(h, another).table, l, k) <==> Found(h, another, l, k).Some?
    ensures Count(IntersectTally(h, another).table, l, k, m) ==
            if Found(h, another, l, k).Some?
            then (if m == Objects then Found(h, another, l, k).value.objects
                  else LoaderSum(h, l, "", k, UsedHeap) + Found(h, another, l, k).value.usedHeap)
            else 0
  {
    var t0 := Tally(map[], ClassIdBase);
    var t1 := AddLoaders(t0, h, false, Tag);
    AddLoadersLoaders(t0, h, false, Tag, l);
    AddLoadersKeys(t0, h, false, Tag, l, k);
    TaggedKeys(h, l, k);
    AddLoadersCount(t0, h, false, Tag, l, Tag + k, Objects);
    AddLoadersCount(t0, h, false, Tag, l, Tag + k, UsedHeap);
    LoaderSumTagged(h, l, k, Objects);
    LoaderSumTagged(h, l, k, UsedHeap);
    MatchLoadersAt(t1, another, l, k, m);
  }

  lemma IntersectTallyFresh(h: seq<LoaderRecord>, another: seq<LoaderRecord>)
    ensures IntersectTally(h, another).next <= ClassIdBase
    ensures Fresh(IntersectTally(h, another).table, IntersectTally(h, another).next, ClassIdBase)
  {
    var t0 := Tally(map[], ClassIdBase);
    AddLoadersFresh(t0, h, false, Tag);
    MatchLoadersFresh(AddLoaders(t0, h, false, Tag), another);
  }

  /** The loader records of the intersection: one per loader under which
      some class has a deciding record, with consecutive ids below the
      loader id base; each holds one record per such class, with the
      deciding object count and both used heaps added; the loader totals
      sum its records. */
  ghost predicate IntersectLoaders(h: seq<LoaderRecord>, another: seq<LoaderRecord>, loaderRecords: seq<LoaderRecord>)
  {
    DistinctNames(loaderRecords) &&
    (forall i :: 0 <= i < |loaderRecords| ==>
       loaderRecords[i].loaderId == LoaderIdBase - 1 - i && loaderRecords[i].retained == 0 &&
       loaderRecords[i].classes != [] &&
       loaderRecords[i].objects == Sum(loaderRecords[i].classes, Objects) &&
       loaderRecords[i].usedHeap == Sum(loaderRecords[i].classes, UsedHeap)) &&
    (forall i, c :: 0 <= i < |loaderRecords| ==>
       (NameIn(loaderRecords[i].classes, c) <==> !StartsWithTag(c) && Found(h, another, loaderRecords[i].name, c).Some?)) &&
    (forall i, j, j' :: 0 <= i < |loaderRecords| && 0 <= j < j' < |loaderRecords[i].classes| ==>
       loaderRecords[i].classes[j].name != loaderRecords[i].classes[j'].name) &&
    (forall l, c :: !StartsWithTag(c) && Found(h, another, l, c).Some? ==> NameOccurs(loaderRecords, l)) &&
    (forall i, j :: 0 <= i < |loaderRecords| && 0 <= j < |loaderRecords[i].classes| ==>
       Found(h, another, loaderRecords[i].name, loaderRecords[i].classes[j].name).Some? &&
       loaderRecords[i].classes[j].objects ==
         Found(h, another, loaderRecords[i].name, loaderRecords[i].classes[j].name).value.objects &&
       loaderRecords[i].classes[j].usedHeap ==
         LoaderSum(h, loaderRecords[i].name, "", loaderRecords[i].classes[j].name, UsedHeap) +
         Found(h, another, loaderRecords[i].name, loaderRecords[i].classes[j].name).value.usedHeap &&
       loaderRecords[i].classes[j].retained == 0 && loaderRecords[i].classes[j].classId < ClassIdBase)
  }

  /** The class records of a merge: one per class of the loader records,
      totalling it over them, with distinct ids below the class id base. */
  ghost predicate MergedClasses(loaderRecords: seq<LoaderRecord>, classRecords: seq<ClassRecord>)
  {
    (forall j, j' :: 0 <= j < j' < |classRecords| ==> classRecords[j].name != classRecords[j'].name) &&
    (forall c :: NameIn(classRecords, c) <==> ClassOccurs(loaderRecords, c)) &&
    (forall j, m :: 0 <= j < |classRecords| ==> Value(classRecords[j], m) == ClassTotal(loaderRecords, classRecords[j].name, m)) &&
    (forall j :: 0 <= j < |classRecords| ==> classRecords[j].retained == 0 && classRecords[j].classId < ClassIdBase) &&
    (forall j, j' :: 0 <= j < |classRecords| && 0 <= j' < |classRecords| && classRecords[j].classId == classRecords[j'].classId ==> j == j')
  }

  lemma IntersectLoadersHold(h: seq<LoaderRecord>, another: seq<LoaderRecord>, loaderRecords: seq<LoaderRecord>)
    requires Untagged(another)
    requires ListedUpTo(IntersectTally(h, another).table, true, IntersectTally(h, another).table.Keys, loaderRecords)
    ensures IntersectLoaders(h, another, loaderRecords)
  {
    var t := IntersectTally(h, another).table;
    IntersectTallyFresh(h, another);
    forall i, c | 0 <= i < |loaderRecords|
      ensures NameIn(loaderRecords[i].classes, c) <==> !StartsWithTag(c) && Found(h, another, loaderRecords[i].name, c).Some?
    {
      assert LoaderRecordOf(t, true, loaderRecords[i]);
      if !StartsWithTag(c) {
        IntersectTallyAt(h, another, loaderRecords[i].name, c, Objects);
      }
    }
    forall l, c | !StartsWithTag(c) && Found(h, another, l, c).Some? ensures NameOccurs(loaderRecords, l) {
      IntersectTallyAt(h, another, l, c, Objects);
      assert HasKept(t, l, true);
    }
    forall i, j | 0 <= i < |loaderRecords| && 0 <= j < |loaderRecords[i].classes|
      ensures Found(h, another, loaderRecords[i].name, loaderRecords[i].classes[j].name).Some?
      ensures loaderRecords[i].classes[j].objects ==
                Found(h, another, loaderRecords[i].name, loaderRecords[i].classes[j].name).value.objects
      ensures loaderRecords[i].classes[j].usedHeap ==
                LoaderSum(h, loaderRecords[i].name, "", loaderRecords[i].classes[j].name, UsedHeap) +
                Found(h, another, loaderRecords[i].name, loaderRecords[i].classes[j].name).value.usedHeap
      ensures loaderRecords[i].classes[j].retained == 0 && loaderRecords[i].classes[j].classId < ClassIdBase
    {
      var lr := loaderRecords[i];
      var c := lr.classes[j];
      assert LoaderRecordOf(t, true, lr);
      assert RecordsFrom(t, lr.name, lr.classes);
      assert NameIn(lr.classes, c.name);
      IntersectTallyAt(h, another, lr.name, c.name, Objects);
      IntersectTallyAt(h, another, lr.name, c.name, UsedHeap);
    }
    forall i | 0 <= i < |loaderRecords|
      ensures loaderRecords[i].loaderId == LoaderIdBase - 1 - i && loaderRecords[i].retained == 0
      ensures loaderRecords[i].classes != []
      ensures forall j, j' :: 0 <= j < j' < |loaderRecords[i].classes| ==>
                loaderRecords[i].classes[j].name != loaderRecords[i].classes[j'].name
      ensures loaderRecords[i].objects == Sum(loaderRecords[i].classes, Objects)
      ensures loaderRecords[i].usedHeap == Sum(loaderRecords[i].classes, UsedHeap)
    {
      assert LoaderRecordOf(t, true, loaderRecords[i]);
    }
  }

  lemma MergedClassesHold(next0: int, loaderRecords: seq<LoaderRecord>,
                          merged: map<string, ClassRecord>, next: int, classRecords: seq<ClassRecord>)
    requires next0 <= ClassIdBase
    requires Totals(loaderRecords, merged)
    requires MergedFresh(merged, next, next0)
    requires forall c :: NameIn(classRecords, c) <==> c in merged
    requires forall j :: 0 <= j < |classRecords| ==> classRecords[j].name in merged && classRecords[j] == merged[classRecords[j].name]
    requires forall j, j' :: 0 <= j < j' < |classRecords| ==> classRecords[j].name != classRecords[j'].name
    ensures MergedClasses(loaderRecords, classRecords)
  {
    forall j, m | 0 <= j < |classRecords|
      ensures Value(classRecords[j], m) == ClassTotal(loaderRecords, classRecords[j].name, m)
    {
      assert MergedCount(merged, classRecords[j].name, m) == Value(classRecords[j], m);
    }
    forall j, j' | 0 <= j < |classRecords| && 0 <= j' < |classRecords| && classRecords[j].classId == classRecords[j'].classId
      ensures j == j'
    {
      assert classRecords[j].name == classRecords[j'].name;
    }
  }

  /** `intersectWithAnother`: the histogram of what stayed the same, the
      classes whose object count under a loader is positive and equal in
      both histograms.  The overall totals add up, after each kept record,
      the running subtotal of its loader. */
  method IntersectWithAnother(h: Histogram, another: Histogram) returns (r: Result<Histogram, HistogramError>)
    ensures r.Failure? <==> h.loaderRecords.None? || another.loaderRecords.None?
    ensures r.Success? ==>
      r.value.name == "Histogram intersection of " + h.name + " and " + another.name &&
      r.value.loaderRecords.Some? && r.value.classRecords.Some? &&
      r.value.objects == Overall(r.value.loaderRecords.value, Objects) &&
      r.value.usedHeap == Overall(r.value.loaderRecords.value, UsedHeap) &&
      r.value.retained == 0 && !r.value.isDefault &&
      MergedClasses(r.value.loaderRecords.value, r.value.classRecords.value)
    ensures r.Success? && Untagged(another.loaderRecords.value) ==>
      IntersectLoaders(h.loaderRecords.value, another.loaderRecords.value, r.value.loaderRecords.value)
  {
    if h.loaderRecords.None? || another.loaderRecords.None? {
      return Failure(NullRecords);
    }
    var mine, theirs := h.loaderRecords.value, another.loaderRecords.value;
    var t := Accumulate(Tally(map[], ClassIdBase), mine, false, Tag);
    t := MatchAnother(t, theirs);
    IntersectTallyFresh(mine, theirs);
    var merged, loaderRecords, objects, usedHeap, next := MergeTable(t.table, t.next, true);
    var classRecords := ValuesOf(merged);
    MergedClassesHold(t.next, loaderRecords, merged, next, classRecords);
    if Untagged(theirs) {
      IntersectLoadersHold(mine, theirs, loaderRecords);
    }
    r := Success(Histogram("Histogram intersection of " + h.name + " and " + another.name,
                           Some(classRecords), Some(loaderRecords), objects, usedHeap, 0, false));
  }

  // ---------------------------------------------------------------------
  // The overall totals of the intersection
  // ---------------------------------------------------------------------

  /** What the overall totals of the intersection evidently should be: the
      sum of the loader records' totals. */
  function IntendedOverall(loaders: seq<LoaderRecord>, m: Measure): int
  {
    if loaders == [] then 0
    else IntendedOverall(loaders[..|loaders| - 1], m) + Sum(loaders[|loaders| - 1].classes, m)
  }

  /** As written, one loader record with two one-object records yields
      three objects overall, while the histogram holds two. */
  lemma OverallRepeatsSubtotals()
    ensures var a := ClassRecord("A", ClassIdBase - 1, 1, 8, 0);
            var b := ClassRecord("B", ClassIdBase - 2, 1, 8, 0);
            var lr := LoaderRecord("l", LoaderIdBase - 1, [a, b], 2, 16, 0);
            Overall([lr], Objects) == 3 && IntendedOverall([lr], Objects) == 2 && Sum([a, b], Objects) == 2
  {
    var a := ClassRecord("A", ClassIdBase - 1, 1, 8, 0);
    var b := ClassRecord("B", ClassIdBase - 2, 1, 8, 0);
    var lr := LoaderRecord("l", LoaderIdBase - 1, [a, b], 2, 16, 0);
    assert [a, b][..1] == [a];
    assert [a][..0] == [];
    assert [lr][..0] == [];
    assert Sum([a], Objects) == 1;
    assert Running([a], Objects) == 1;
    assert Running([a, b], Objects) == 3;
  }

  /** The sum over `names` of what `records` hold under each name. */
  function SumByName(names: seq<ClassRecord>, records: seq<ClassRecord>, m: Measure): int
  {
    if names == [] then 0
    else SumByName(names[..|names| - 1], records, m) + NameSum(records, names[|names| - 1].name, m)
  }

  /** The sum over `names` of each name's total over `loaders`. */
  function TotalByName(names: seq<ClassRecord>, loaders: seq<LoaderRecord>, m: Measure): int
  {
    if names == [] then 0
    else TotalByName(names[..|names| - 1], loaders, m) + ClassTotal(loaders, names[|names| - 1].name, m)
  }

  /** `v` for each record of `names` named `x`. */
  function NameIndicator(names: seq<ClassRecord>, x: string, v: int): int
  {
    if names == [] then 0
    else NameIndicator(names[..|names| - 1], x, v) + (if names[|names| - 1].name == x then v else 0)
  }

  lemma {:induction false} NameIndicatorOnce(names: seq<ClassRecord>, x: string, v: int)
    requires forall j, j' :: 0 <= j < j' < |names| ==> names[j].name != names[j'].name
    ensures NameIndicator(names, x, v) == if NameIn(names, x) then v else 0
  {
    if names != [] {
      var init := names[..|names| - 1];
      NameIndicatorOnce(init, x, v);
      if NameIn(init, x) {
        var j :| 0 <= j < |init| && init[j].name == x;
        assert names[j] == init[j];
      }
      if NameIn(names, x) && names[|names| - 1].name != x {
        var j :| 0 <= j < |names| && names[j].name == x;
        assert init[j] == names[j];
      }
    }
  }

  lemma {:induction false} SumByNameNothing(names: seq<ClassRecord>, m: Measure)
    ensures SumByName(names, [], m) == 0
  {
    if names != [] {
      SumByNameNothing(names[..|names| - 1], m);
    }
  }

  lemma {:induction false} TotalByNameNothing(names: seq<ClassRecord>, m: Measure)
    ensures TotalByName(names, [], m) == 0
  {
    if names != [] {
      TotalByNameNothing(names[..|names| - 1], m);
    }
  }

  lemma {:induction false} SumByNameAppend(names: seq<ClassRecord>, records: seq<ClassRecord>, rec: ClassRecord, m: Measure)
    ensures SumByName(names, records + [rec], m) == SumByName(names, records, m) + NameIndicator(names, rec.name, Value(rec, m))
  {
    if names != [] {
      SumByNameAppend(names[..|names| - 1], records, rec, m);
      assert (records + [rec])[..|records|] == records;
    }
  }

  /** Summing a list of records name by name, over distinct names that
      cover all of them, gives their plain sum. */
  lemma {:induction false} SumByNameCovers(names: seq<ClassRecord>, records: seq<ClassRecord>, m: Measure)
    requires forall j, j' :: 0 <= j < j' < |names| ==> names[j].name != names[j'].name
    requires forall k :: 0 <= k < |records| ==> NameIn(names, records[k].name)
    ensures SumByName(names, records, m) == Sum(records, m)
  {
    if records == [] {
      SumByNameNothing(names, m);
    } else {
      var init := records[..|records| - 1];
      var rec := records[|records| - 1];
      forall k | 0 <= k < |init| ensures NameIn(names, init[k].name) {
        assert init[k] == records[k];
      }
      SumByNameCovers(names, init, m);
      assert records == init + [rec];
      SumByNameAppend(names, init, rec, m);
      NameIndicatorOnce(names, rec.name, Value(rec, m));
    }
  }

  lemma {:induction false} TotalByNameAppend(names: seq<ClassRecord>, loaders: seq<LoaderRecord>, lr: LoaderRecord, m: Measure)
    ensures TotalByName(names, loaders + [lr], m) == TotalByName(names, loaders, m) + SumByName(names, lr.classes, m)
  {
    if names != [] {
      TotalByNameAppend(names[..|names| - 1], loaders, lr, m);
      assert (loaders + [lr])[..|loaders|] == loaders;
    }
  }

  lemma {:induction false} TotalByNameCovers(names: seq<ClassRecord>, loaders: seq<LoaderRecord>, m: Measure)
    requires forall j, j' :: 0 <= j < j' < |names| ==> names[j].name != names[j'].name
    requires forall c :: ClassOccurs(loaders, c) ==> NameIn(names, c)
    ensures TotalByName(names, loaders, m) == IntendedOverall(loaders, m)
  {
    if loaders == [] {
      TotalByNameNothing(names, m);
    } else {
      var init := loaders[..|loaders| - 1];
      var lr := loaders[|loaders| - 1];
      forall c | ClassOccurs(init, c) ensures NameIn(names, c) {
        var i :| 0 <= i < |init| && NameIn(init[i].classes, c);
        assert loaders[i] == init[i];
      }
      forall k | 0 <= k < |lr.classes| ensures NameIn(names, lr.classes[k].name) {
        assert NameIn(loaders[|loaders| - 1].classes, lr.classes[k].name);
      }
      TotalByNameCovers(names, init, m);
      assert loaders == init + [lr];
      TotalByNameAppend(names, init, lr, m);
      SumByNameCovers(names, lr.classes, m);
    }
  }

  lemma {:induction false} SumIsTotalByName(names: seq<ClassRecord>, loaders: seq<LoaderRecord>, m: Measure)
    requires forall j :: 0 <= j < |names| ==> Value(names[j], m) == ClassTotal(loaders, names[j].name, m)
    ensures Sum(names, m) == TotalByName(names, loaders, m)
  {
    if names != [] {
      SumIsTotalByName(names[..|names| - 1], loaders, m);
    }
  }

  /** The intended overall totals are those of the histogram's class
      records. */
  lemma IntendedOverallIsClassSum(loaderRecords: seq<LoaderRecord>, classRecords: seq<ClassRecord>, m: Measure)
    requires MergedClasses(loaderRecords, classRecords)
    ensures IntendedOverall(loaderRecords, m) == Sum(classRecords, m)
  {
    SumIsTotalByName(classRecords, loaderRecords, m);
    TotalByNameCovers(classRecords, loaderRecords, m);
  }

  // ---------------------------------------------------------------------
  // A histogram against itself
  // ---------------------------------------------------------------------

  lemma {:induction false} SumOfZeros(records: seq<ClassRecord>, m: Measure)
    requires forall j :: 0 <= j < |records| ==> Value(records[j], m) == 0
    ensures Sum(records, m) == 0
  {
    if records != [] {
      SumOfZeros(records[..|records| - 1], m);
    }
  }

  /** The difference of a histogram with itself is zero in every class
      record and every loader record. */
  lemma DiffWithItself(h: seq<LoaderRecord>, loaderRecords: seq<LoaderRecord>, classRecords: seq<ClassRecord>)
    requires DiffLoaders(h, h, loaderRecords)
    requires DiffClasses(h, h, classRecords)
    ensures forall i, j, m :: 0 <= i < |loaderRecords| && 0 <= j < |loaderRecords[i].classes| ==>
              Value(loaderRecords[i].classes[j], m) == 0
    ensures forall i :: 0 <= i < |loaderRecords| ==> loaderRecords[i].objects == 0 && loaderRecords[i].usedHeap == 0
    ensures forall j, m :: 0 <= j < |classRecords| ==> Value(classRecords[j], m) == 0
  {
    forall i | 0 <= i < |loaderRecords|
      ensures loaderRecords[i].objects == 0 && loaderRecords[i].usedHeap == 0
    {
      SumOfZeros(loaderRecords[i].classes, Objects);
      SumOfZeros(loaderRecords[i].classes, UsedHeap);
    }
  }

  /** At most one class record per loader name and class name. */
  predicate UniquePairs(loaders: seq<LoaderRecord>)
  {
    forall i, i', j, j' ::
      (0 <= i < |loaders| && 0 <= i' < |loaders| &&
       0 <= j < |loaders[i].classes| && 0 <= j' < |loaders[i'].classes| &&
       loaders[i].name == loaders[i'].name && loaders[i].classes[j].name == loaders[i'].classes[j'].name)
      ==> i == i' && j == j'
  }

  lemma {:induction false} NameSumNone(records: seq<ClassRecord>, k: string, m: Measure)
    requires !NameIn(records, k)
    ensures NameSum(records, k, m) == 0
  {
    if records != [] {
      var init := records[..|records| - 1];
      assert !NameIn(init, k) by {
        forall j | 0 <= j < |init| ensures init[j].name != k {
          assert init[j] == records[j];
        }
      }
      NameSumNone(init, k, m);
    }
  }

  lemma {:induction false} NameSumOnce(records: seq<ClassRecord>, j: int, m: Measure)
    requires 0 <= j < |records|
    requires forall j' :: 0 <= j' < |records| && records[j'].name == records[j].name ==> j' == j
    ensures NameSum(records, records[j].name, m) == Value(records[j], m)
  {
    var init := records[..|records| - 1];
    if j == |records| - 1 {
      assert !NameIn(init, records[j].name) by {
        forall j' | 0 <= j' < |init| ensures init[j'].name != records[j].name {
          assert init[j'] == records[j'];
        }
      }
      NameSumNone(init, records[j].name, m);
    } else {
      assert init[j] == records[j];
      NameSumOnce(init, j, m);
    }
  }

  lemma {:induction false} LoaderSumNone(loaders: seq<LoaderRecord>, l: string, k: string, m: Measure)
    requires forall i :: 0 <= i < |loaders| && loaders[i].name == l ==> !NameIn(loaders[i].classes, k)
    ensures LoaderSum(loaders, l, "", k, m) == 0
  {
    if loaders != [] {
      var last := loaders[|loaders| - 1];
      LoaderSumNone(loaders[..|loaders| - 1], l, k, m);
      KeySumUnprefixed(last.classes, k, m);
      if last.name == l {
        NameSumNone(last.classes, k, m);
      }
    }
  }

  /** With one record per pair, the sum for a pair is that record's value. */
  lemma {:induction false} LoaderSumUnique(loaders: seq<LoaderRecord>, i: int, j: int, m: Measure)
    requires UniquePairs(loaders)
    requires 0 <= i < |loaders| && 0 <= j < |loaders[i].classes|
    ensures LoaderSum(loaders, loaders[i].name, "", loaders[i].classes[j].name, m) == Value(loaders[i].classes[j], m)
  {
    var init := loaders[..|loaders| - 1];
    var last := loaders[|loaders| - 1];
    var l, k := loaders[i].name, loaders[i].classes[j].name;
    KeySumUnprefixed(last.classes, k, m);
    if i == |loaders| - 1 {
      forall i' | 0 <= i' < |init| && init[i'].name == l ensures !NameIn(init[i'].classes, k) {
        assert init[i'] == loaders[i'];
      }
      LoaderSumNone(init, l, k, m);
      NameSumOnce(last.classes, j, m);
    } else {
      assert init[i] == loaders[i];
      assert UniquePairs(init) by {
        forall i1, i2, j1, j2 | 0 <= i1 < |init| && 0 <= i2 < |init| &&
                                0 <= j1 < |init[i1].classes| && 0 <= j2 < |init[i2].classes| &&
                                init[i1].name == init[i2].name && init[i1].classes[j1].name == init[i2].classes[j2].name
          ensures i1 == i2 && j1 == j2
        {
          assert init[i1] == loaders[i1] && init[i2] == loaders[i2];
        }
      }
      LoaderSumUnique(init, i, j, m);
      if last.name == l {
        assert !NameIn(last.classes, k);
        NameSumNone(last.classes, k, m);
      }
    }
  }

  /** The deciding record is one of the other histogram's records under
      the loader. */
  lemma {:induction false} LastMatchFrom(loaders: seq<LoaderRecord>, l: string, k: string, count: int)
    requires LastMatch(loaders, l, k, count).Some?
    ensures exists i, j :: 0 <= i < |loaders| && 0 <= j < |loaders[i].classes| && loaders[i].name == l &&
                           loaders[i].classes[j] == LastMatch(loaders, l, k, count).value
  {
    var init := loaders[..|loaders| - 1];
    var lr := loaders[|loaders| - 1];
    if lr.name == l && LastIn(lr.classes, k, count).Some? {
      var j :| 0 <= j < |lr.classes| && lr.classes[j] == LastIn(lr.classes, k, count).value;
      assert loaders[|loaders| - 1].classes[j] == LastMatch(loaders, l, k, count).value;
    } else {
      LastMatchFrom(init, l, k, count);
      var i, j :| 0 <= i < |init| && 0 <= j < |init[i].classes| && init[i].name == l &&
                  init[i].classes[j] == LastMatch(init, l, k, count).value;
      assert loaders[i] == init[i];
    }
  }

  /** Intersecting a histogram (one record per loader and class) with
      itself keeps every class record with a positive object count, with
      that count and its used heap doubled. */
  lemma IntersectSelfKeeps(h: seq<LoaderRecord>, loaderRecords: seq<LoaderRecord>, i: int, j: int)
    requires Untagged(h) && UniquePairs(h)
    requires IntersectLoaders(h, h, loaderRecords)
    requires 0 <= i < |h| && 0 <= j < |h[i].classes| && h[i].classes[j].objects > 0
    ensures exists p, q :: 0 <= p < |loaderRecords| && 0 <= q < |loaderRecords[p].classes| &&
                           loaderRecords[p].name == h[i].name &&
                           loaderRecords[p].classes[q].name == h[i].classes[j].name &&
                           loaderRecords[p].classes[q].objects == h[i].classes[j].objects &&
                           loaderRecords[p].classes[q].usedHeap == 2 * h[i].classes[j].usedHeap
  {
    var l, c := h[i].name, h[i].classes[j];
    LoaderSumUnique(h, i, j, Objects);
    LoaderSumUnique(h, i, j, UsedHeap);
    FoundExactly(h, h, l, c.name);
    var p :| 0 <= p < |loaderRecords| && loaderRecords[p].name == l;
    var q :| 0 <= q < |loaderRecords[p].classes| && loaderRecords[p].classes[q].name == c.name;
    LastMatchFrom(h, l, c.name, c.objects);
  }

  /** Conversely each record of the self-intersection comes from such a
      class record. */
  lemma IntersectSelfFrom(h: seq<LoaderRecord>, loaderRecords: seq<LoaderRecord>, p: int, q: int)
    requires Untagged(h) && UniquePairs(h)
    requires IntersectLoaders(h, h, loaderRecords)
    requires 0 <= p < |loaderRecords| && 0 <= q < |loaderRecords[p].classes|
    ensures exists i, j :: 0 <= i < |h| && 0 <= j < |h[i].classes| &&
                           loaderRecords[p].name == h[i].name &&
                           loaderRecords[p].classes[q].name == h[i].classes[j].name &&
                           h[i].classes[j].objects > 0 &&
                           loaderRecords[p].classes[q].objects == h[i].classes[j].objects &&
                           loaderRecords[p].classes[q].usedHeap == 2 * h[i].classes[j].usedHeap
  {
    var l, r := loaderRecords[p].name, loaderRecords[p].classes[q];
    var count := LoaderSum(h, l, "", r.name, Objects);
    LastMatchFrom(h, l, r.name, count);
    var i, j :| 0 <= i < |h| && 0 <= j < |h[i].classes| && h[i].name == l &&
                h[i].classes[j] == LastMatch(h, l, r.name, count).value;
    LoaderSumUnique(h, i, j, Objects);
    LoaderSumUnique(h, i, j, UsedHeap);
  }
}
