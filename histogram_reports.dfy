/** The renderers of a histogram: the padded `toString`, the boxed text
    report and the two semicolon-separated reports. */
module HistogramReports {
  import opened Wrappers
  import opened Text
  import opened Histograms

  // ---------------------------------------------------------------------
  // Padding
  // ---------------------------------------------------------------------

  /** `alignLeft`: the text followed by blanks up to `length` characters. */
  method AlignLeft(text: string, length: int) returns (r: string)
    ensures r == text + Fill(' ', length - |text|)
    ensures |text| >= length ==> r == text
    ensures |text| < length ==> |r| == length && r[..|text|] == text &&
                                forall k :: |text| <= k < length ==> r[k] == ' '
  {
    if |text| >= length {
      return text;
    }
    var blanks := length - |text|;
    r := text;
    for i := 0 to blanks
      invariant r == text + Fill(' ', i)
    {
      r := r + [' '];
    }
  }

  /** `alignRight`: blanks up to `length` characters, then the text. */
  method AlignRight(text: string, length: int) returns (r: string)
    ensures r == Fill(' ', length - |text|) + text
    ensures |text| >= length ==> r == text
    ensures |text| < length ==> |r| == length && r[length - |text|..] == text &&
                                forall k :: 0 <= k < length - |text| ==> r[k] == ' '
  {
    if |text| >= length {
      return text;
    }
    var blanks := length - |text|;
    var pad := "";
    for i := 0 to blanks
      invariant pad == Fill(' ', i)
    {
      pad := pad + [' '];
    }
    r := pad + text;
  }

  /** Length of `text` when it is not null. */
  function Width(text: Option<string>): nat {
    if text.Some? then |text.value| else 0
  }

  /** `appendStringAndFillUp`: appends the string (nothing for null), then
      `character` until `completeLength` characters were appended. */
  method AppendStringAndFillUp(report: string, text: Option<string>, character: char, completeLength: int)
    returns (r: string)
    ensures r == report + text.GetOr("") + Fill(character, completeLength - Width(text))
    ensures |r| - |report| == if completeLength > Width(text) then completeLength else Width(text)
  {
    r := report;
    var remaining := completeLength;
    if text.Some? {
      r := r + text.value;
    }
    if text.Some? {
      remaining := remaining - |text.value|;
    }
    if remaining > 0 {
      for i := 0 to remaining
        invariant r == report + text.GetOr("") + Fill(character, i)
      {
        r := r + [character];
      }
    }
  }

  /** `appendPreFillAndString`: appends `character` until, with the string
      after it, `completeLength` characters were appended. */
  method AppendPreFillAndString(report: string, text: Option<string>, character: char, completeLength: int)
    returns (r: string)
    ensures r == report + Fill(character, completeLength - Width(text)) + text.GetOr("")
    ensures |r| - |report| == if completeLength > Width(text) then completeLength else Width(text)
  {
    r := report;
    var remaining := completeLength;
    if text.Some? {
      remaining := remaining - |text.value|;
    }
    if remaining > 0 {
      for i := 0 to remaining
        invariant r == report + Fill(character, i)
      {
        r := r + [character];
      }
    }
    if text.Some? {
      r := r + text.value;
    }
  }

  // ---------------------------------------------------------------------
  // Sorting by a comparator
  // ---------------------------------------------------------------------

  /** A comparator that orders all records consistently: any two compare
      one way or the other, and the order is transitive. */
  ghost predicate TotalPreorder(cmp: (ClassRecord, ClassRecord) -> int)
  {
    (forall a, b :: cmp(a, b) <= 0 || cmp(b, a) <= 0) &&
    (forall a, b, c :: cmp(a, b) <= 0 && cmp(b, c) <= 0 ==> cmp(a, c) <= 0)
  }

  ghost predicate SortedBy(s: seq<ClassRecord>, cmp: (ClassRecord, ClassRecord) -> int)
  {
    forall i, j :: 0 <= i < j < |s| ==> cmp(s[i], s[j]) <= 0
  }

  /** `x` placed after every trailing record that does not compare above it. */
  function Insert(x: ClassRecord, s: seq<ClassRecord>, cmp: (ClassRecord, ClassRecord) -> int): (r: seq<ClassRecord>)
    ensures multiset(r) == multiset(s) + multiset{x}
  {
    if s == [] || cmp(s[|s| - 1], x) <= 0 then s + [x]
    else
      assert s == s[..|s| - 1] + [s[|s| - 1]];
      Insert(x, s[..|s| - 1], cmp) + [s[|s| - 1]]
  }

  /** `Collections.sort`: a stable sort by the comparator. */
  function SortBy(s: seq<ClassRecord>, cmp: (ClassRecord, ClassRecord) -> int): (r: seq<ClassRecord>)
    ensures multiset(r) == multiset(s)
  {
    if s == [] then []
    else
      assert s == s[..|s| - 1] + [s[|s| - 1]];
      Insert(s[|s| - 1], SortBy(s[..|s| - 1], cmp), cmp)
  }

  lemma {:induction false} InsertSorted(x: ClassRecord, s: seq<ClassRecord>, cmp: (ClassRecord, ClassRecord) -> int)
    requires TotalPreorder(cmp)
    requires SortedBy(s, cmp)
    ensures SortedBy(Insert(x, s, cmp), cmp)
  {
    if s == [] {
    } else if cmp(s[|s| - 1], x) <= 0 {
      AppendSorted(s, x, cmp);
    } else {
      var init, last := s[..|s| - 1], s[|s| - 1];
      assert SortedBy(init, cmp);
      InsertSorted(x, init, cmp);
      forall k | 0 <= k < |init| ensures cmp(init[k], last) <= 0 {
        assert s[k] == init[k];
      }
      InsertBelow(x, init, last, cmp);
      AppendSorted(Insert(x, init, cmp), last, cmp);
    }
  }

  /** Appending a record that no record compares above keeps the order. */
  lemma AppendSorted(s: seq<ClassRecord>, x: ClassRecord, cmp: (ClassRecord, ClassRecord) -> int)
    requires TotalPreorder(cmp)
    requires SortedBy(s, cmp)
    requires s != [] ==> cmp(s[|s| - 1], x) <= 0
    ensures SortedBy(s + [x], cmp)
  {
    var r := s + [x];
    forall i, j | 0 <= i < j < |r| ensures cmp(r[i], r[j]) <= 0 {
      if j == |s| && i < |s| - 1 {
        assert cmp(s[i], s[|s| - 1]) <= 0;
      }
    }
  }

  /** What inserting below `last` yields stays below it. */
  lemma InsertBelow(x: ClassRecord, init: seq<ClassRecord>, last: ClassRecord, cmp: (ClassRecord, ClassRecord) -> int)
    requires TotalPreorder(cmp)
    requires SortedBy(Insert(x, init, cmp), cmp)
    requires forall k :: 0 <= k < |init| ==> cmp(init[k], last) <= 0
    requires cmp(last, x) > 0
    ensures Insert(x, init, cmp) != [] && cmp(Insert(x, init, cmp)[|Insert(x, init, cmp)| - 1], last) <= 0
  {
    var r := Insert(x, init, cmp);
    assert r[|r| - 1] in multiset(init) + multiset{x};
    if r[|r| - 1] != x {
      assert r[|r| - 1] in multiset(init);
      var k :| 0 <= k < |init| && init[k] == r[|r| - 1];
    }
  }

  /** Under a consistent comparator the sort orders the records. */
  lemma {:induction false} SortBySorted(s: seq<ClassRecord>, cmp: (ClassRecord, ClassRecord) -> int)
    requires TotalPreorder(cmp)
    ensures SortedBy(SortBy(s, cmp), cmp)
  {
    if s != [] {
      SortBySorted(s[..|s| - 1], cmp);
      InsertSorted(s[|s| - 1], SortBy(s[..|s| - 1], cmp), cmp);
    }
  }

  /** The used-heap comparator: ascending used heap. */
  function ByUsedHeap(a: ClassRecord, b: ClassRecord): int
  {
    if a.usedHeap < b.usedHeap then -1 else if a.usedHeap > b.usedHeap then 1 else 0
  }

  lemma ByUsedHeapConsistent()
    ensures TotalPreorder(ByUsedHeap)
  {
  }

  function Reverse(s: seq<ClassRecord>): (r: seq<ClassRecord>)
    ensures |r| == |s| && forall i :: 0 <= i < |s| ==> r[i] == s[|s| - 1 - i]
  {
    if s == [] then [] else [s[|s| - 1]] + Reverse(s[..|s| - 1])
  }

  lemma {:induction false} ReversePermutes(s: seq<ClassRecord>)
    ensures multiset(Reverse(s)) == multiset(s)
  {
    if s != [] {
      ReversePermutes(s[..|s| - 1]);
      assert s == s[..|s| - 1] + [s[|s| - 1]];
    }
  }

  /** A loader's classes as the loader report lists them: the ascending
      used-heap order walked from its end. */
  function ByHeapDescending(classes: seq<ClassRecord>): (r: seq<ClassRecord>)
    ensures |r| == |classes|
  {
    assert |multiset(SortBy(classes, ByUsedHeap))| == |multiset(classes)|;
    Reverse(SortBy(classes, ByUsedHeap))
  }

  /** They are the loader's classes, in descending used-heap order. */
  lemma ByHeapDescendingOrders(classes: seq<ClassRecord>)
    ensures multiset(ByHeapDescending(classes)) == multiset(classes)
    ensures forall i, j :: 0 <= i < j < |classes| ==>
              ByHeapDescending(classes)[i].usedHeap >= ByHeapDescending(classes)[j].usedHeap
  {
    ByUsedHeapConsistent();
    SortBySorted(classes, ByUsedHeap);
    ReversePermutes(SortBy(classes, ByUsedHeap));
  }

  // ---------------------------------------------------------------------
  // Semicolon-separated reports
  // ---------------------------------------------------------------------

  /** A retained heap as the reports print it: a negative value, which
      means "at least", as `>=` and its magnitude. */
  function RetainedText(retained: int): string
  {
    if retained < 0 then ">=" + IntToString(-retained) else IntToString(retained)
  }

  /** One line of the class report. */
  function CsvRow(r: ClassRecord): string
  {
    r.name + ";" + IntToString(r.objects) + ";" + IntToString(r.usedHeap) + ";" + RetainedText(r.retained) + ";\r\n"
  }

  function CsvRows(records: seq<ClassRecord>): string
  {
    if records == [] then "" else CsvRows(records[..|records| - 1]) + CsvRow(records[|records| - 1])
  }

  const ClassCsvHeader: string := "Class Name;Objects;Shallow Heap;Retained Heap;\r\n"

  /** `generateClassHistogramRecordCsvReport`: the header, then one line per
      class record in the comparator's order. */
  method ClassCsvReport(h: Histogram, cmp: (ClassRecord, ClassRecord) -> int) returns (r: Result<string, HistogramError>)
    ensures r.Failure? <==> h.classRecords.None?
    ensures r.Success? ==> r.value == ClassCsvHeader + CsvRows(SortBy(h.classRecords.value, cmp))
  {
    if h.classRecords.None? {
      return Failure(NullRecords);
    }
    var records := SortBy(h.classRecords.value, cmp);
    var report := AppendCsvRows(ClassCsvHeader, records);
    r := Success(report);
  }

  lemma CsvRowsStep(start: string, records: seq<ClassRecord>, i: int)
    requires 0 <= i < |records|
    ensures start + CsvRows(records[..i + 1]) == (start + CsvRows(records[..i])) + CsvRow(records[i])
  {
    assert records[..i + 1][..i] == records[..i];
    Associative(start, CsvRows(records[..i]), CsvRow(records[i]));
  }

  /** The record loop of the class report. */
  method AppendCsvRows(start: string, records: seq<ClassRecord>) returns (report: string)
    ensures report == start + CsvRows(records)
  {
    report := start;
    for i := 0 to |records|
      invariant report == start + CsvRows(records[..i])
    {
      var record := records[i];
      CsvRowsStep(start, records, i);
      var retained := if record.retained < 0 then ">=" + IntToString(-record.retained) else IntToString(record.retained);
      var line := record.name + ";" + IntToString(record.objects) + ";" + IntToString(record.usedHeap) + ";" + retained + ";\r\n";
      assert line == CsvRow(record);
      report := report + line;
    }
    assert records[..|records|] == records;
  }

  /** One line of the class-loader report. */
  function LoaderCsvRow(loader: string, r: ClassRecord): string
  {
    loader + ";" + CsvRow(r)
  }

  function LoaderClassRows(loader: string, records: seq<ClassRecord>): string
  {
    if records == [] then "" else LoaderClassRows(loader, records[..|records| - 1]) + LoaderCsvRow(loader, records[|records| - 1])
  }

  function LoaderCsvRows(loaders: seq<LoaderRecord>): string
  {
    if loaders == [] then ""
    else LoaderCsvRows(loaders[..|loaders| - 1]) +
         LoaderClassRows(loaders[|loaders| - 1].name, ByHeapDescending(loaders[|loaders| - 1].classes))
  }

  const LoaderCsvHeader: string := "ClassLoader Name;Class Name;Objects;Shallow Heap;Retained Heap;\r\n"

  lemma LoaderRowsStep(start: string, loader: string, list: seq<ClassRecord>, n: int)
    requires 0 <= n < |list|
    ensures start + LoaderClassRows(loader, Reverse(list)[..n + 1]) ==
            (start + LoaderClassRows(loader, Reverse(list)[..n])) + LoaderCsvRow(loader, list[|list| - 1 - n])
  {
    assert Reverse(list)[..n + 1] == Reverse(list)[..n] + [list[|list| - 1 - n]];
    assert Reverse(list)[..n + 1][..n] == Reverse(list)[..n];
    var a, b := LoaderClassRows(loader, Reverse(list)[..n]), LoaderCsvRow(loader, list[|list| - 1 - n]);
    assert LoaderClassRows(loader, Reverse(list)[..n + 1]) == a + b;
    Associative(start, a, b);
  }

  lemma LoadersStep(start: string, loaders: seq<LoaderRecord>, k: int)
    requires 0 <= k < |loaders|
    ensures start + LoaderCsvRows(loaders[..k + 1]) ==
            (start + LoaderCsvRows(loaders[..k])) + LoaderClassRows(loaders[k].name, ByHeapDescending(loaders[k].classes))
  {
    assert loaders[..k + 1][..k] == loaders[..k];
    var a, b := LoaderCsvRows(loaders[..k]), LoaderClassRows(loaders[k].name, ByHeapDescending(loaders[k].classes));
    assert LoaderCsvRows(loaders[..k + 1]) == a + b;
    Associative(start, a, b);
  }

  /** `generateClassLoaderHistogramRecordCsvReport`: the header, then for
      each loader record one line per class record, in descending used-heap
      order; the comparator argument plays no part. */
  method LoaderCsvReport(h: Histogram) returns (r: Result<string, HistogramError>)
    ensures r.Failure? <==> h.loaderRecords.None?
    ensures r.Success? ==> r.value == LoaderCsvHeader + LoaderCsvRows(h.loaderRecords.value)
  {
    if h.loaderRecords.None? {
      return Failure(NullRecords);
    }
    var loaders := h.loaderRecords.value;
    var report := LoaderCsvHeader;
    for k := 0 to |loaders|
      invariant report == LoaderCsvHeader + LoaderCsvRows(loaders[..k])
    {
      var loader := loaders[k];
      LoadersStep(LoaderCsvHeader, loaders, k);
      report := AppendLoaderRows(report, loader.name, SortBy(loader.classes, ByUsedHeap));
      assert Reverse(SortBy(loader.classes, ByUsedHeap)) == ByHeapDescending(loader.classes);
    }
    assert loaders[..|loaders|] == loaders;
    r := Success(report);
  }

  /** The inner loop of the class-loader report: the sorted list walked
      from its end. */
  method AppendLoaderRows(start: string, loader: string, list: seq<ClassRecord>) returns (report: string)
    ensures report == start + LoaderClassRows(loader, Reverse(list))
  {
    // the source walks the list from its last element down to its first
    report := start;
    for n := 0 to |list|
      invariant report == start + LoaderClassRows(loader, Reverse(list)[..n])
    {
      var record := list[|list| - 1 - n];
      LoaderRowsStep(start, loader, list, n);
      report := report + LoaderCsvRow(loader, record);
    }
    assert Reverse(list)[..|list|] == Reverse(list);
  }

  // Reading the reports back

  /** The fields of a line split at each semicolon. */
  function Split(s: string): (r: seq<string>)
    ensures |r| >= 1
  {
    if s == [] then [""]
    else if s[0] == ';' then [""] + Split(s[1..])
    else
      var rest := Split(s[1..]);
      [[s[0]] + rest[0]] + rest[1..]
  }

  lemma {:induction false} SplitAfter(a: string, b: string)
    requires ';' !in a
    ensures Split(a + ";" + b) == [a] + Split(b)
  {
    var s := a + ";" + b;
    if a != [] {
      assert s[0] == a[0] && s[1..] == a[1..] + ";" + b;
      SplitAfter(a[1..], b);
      assert [a[0]] + a[1..] == a;
    } else {
      assert s == [';'] + b;
      assert s[1..] == b;
    }
  }

  lemma {:induction false} SplitWhole(a: string)
    requires ';' !in a
    ensures Split(a) == [a]
  {
    if a != [] {
      SplitWhole(a[1..]);
      assert [a[0]] + a[1..] == a;
    }
  }

  lemma NoSeparatorInNumber(i: int)
    ensures ';' !in IntToString(i) && ';' !in RetainedText(i)
  {
    var d := NatToString(if i < 0 then -i else i);
    assert ';' !in d by {
      forall k | 0 <= k < |d| ensures d[k] != ';' {
        assert IsDigit(d[k]);
      }
    }
    if i < 0 {
      assert IntToString(i) == "-" + d;
      var d' := NatToString(-i);
      assert ';' !in d' by {
        forall k | 0 <= k < |d'| ensures d'[k] != ';' {
          assert IsDigit(d'[k]);
        }
      }
      assert RetainedText(i) == ">=" + d';
    } else {
      assert RetainedText(i) == d;
    }
  }

  /** A retained-heap field read back. */
  function ParseRetained(s: string): Option<int>
  {
    if |s| >= 2 && s[..2] == ">=" then
      match ParseInt(s[2..])
      case Some(v) => Some(-v)
      case None => None
    else ParseInt(s)
  }

  lemma RetainedRoundTrip(retained: int)
    ensures ParseRetained(RetainedText(retained)) == Some(retained)
  {
    if retained < 0 {
      IntToStringRoundTrip(-retained);
      ParseAtLeast(IntToString(-retained), -retained);
    } else {
      IntToStringRoundTrip(retained);
      assert IsDigit(NatToString(retained)[0]);
      ParsePlain(IntToString(retained), retained);
    }
  }

  lemma ParseAtLeast(t: string, v: int)
    requires ParseInt(t) == Some(v)
    ensures ParseRetained(">=" + t) == Some(-v)
  {
    assert (">=" + t)[..2] == ">=";
    assert (">=" + t)[2..] == t;
  }

  lemma ParsePlain(t: string, v: int)
    requires ParseInt(t) == Some(v) && t != [] && t[0] != '>'
    ensures ParseRetained(t) == Some(v)
  {
  }

  /** The label and the three figures of a class line, read back. */
  function ParseCsvRow(line: string): Option<(string, int, int, int)>
  {
    var f := Split(line);
    if |f| == 5 && f[4] == "\r\n" && ParseInt(f[1]).Some? && ParseInt(f[2]).Some? && ParseRetained(f[3]).Some?
    then Some((f[0], ParseInt(f[1]).value, ParseInt(f[2]).value, ParseRetained(f[3]).value))
    else None
  }

  lemma SplitCsvRow(r: ClassRecord)
    requires ';' !in r.name
    ensures Split(CsvRow(r)) == [r.name, IntToString(r.objects), IntToString(r.usedHeap), RetainedText(r.retained), "\r\n"]
  {
    NoSeparatorInNumber(r.objects);
    NoSeparatorInNumber(r.usedHeap);
    NoSeparatorInNumber(r.retained);
    var o, u, t := IntToString(r.objects), IntToString(r.usedHeap), RetainedText(r.retained);
    var end := "\r\n";
    SplitWhole(end);
    var s3 := t + ";" + end;
    SplitAfter(t, end);
    var s2 := u + ";" + s3;
    SplitAfter(u, s3);
    var s1 := o + ";" + s2;
    SplitAfter(o, s2);
    SplitAfter(r.name, s1);
    FieldsNest(r.name, o, u, t);
  }

  /** The left-nested concatenation of a line of four fields, regrouped
      from the right as `Split` reads it. */
  lemma FieldsNest(a: string, o: string, u: string, t: string)
    ensures a + ";" + o + ";" + u + ";" + t + ";\r\n" == a + ";" + (o + ";" + (u + ";" + (t + ";" + "\r\n")))
  {
    assert ";\r\n" == ";" + "\r\n";
  }

  /** A line of the class report reads back as the record's label and
      figures, provided the label holds no semicolon. */
  lemma CsvRowRoundTrip(r: ClassRecord)
    requires ';' !in r.name
    ensures ParseCsvRow(CsvRow(r)) == Some((r.name, r.objects, r.usedHeap, r.retained))
  {
    SplitCsvRow(r);
    IntToStringRoundTrip(r.objects);
    IntToStringRoundTrip(r.usedHeap);
    RetainedRoundTrip(r.retained);
  }

  /** The loader label, then the class line, read back. */
  function ParseLoaderCsvRow(line: string): Option<(string, string, int, int, int)>
  {
    var f := Split(line);
    if |f| == 6 && f[5] == "\r\n" && ParseInt(f[2]).Some? && ParseInt(f[3]).Some? && ParseRetained(f[4]).Some?
    then Some((f[0], f[1], ParseInt(f[2]).value, ParseInt(f[3]).value, ParseRetained(f[4]).value))
    else None
  }

  lemma LoaderCsvRowRoundTrip(loader: string, r: ClassRecord)
    requires ';' !in loader && ';' !in r.name
    ensures ParseLoaderCsvRow(LoaderCsvRow(loader, r)) == Some((loader, r.name, r.objects, r.usedHeap, r.retained))
  {
    SplitCsvRow(r);
    SplitAfter(loader, CsvRow(r));
    IntToStringRoundTrip(r.objects);
    IntToStringRoundTrip(r.usedHeap);
    RetainedRoundTrip(r.retained);
  }

  // ---------------------------------------------------------------------
  // The boxed text report
  // ---------------------------------------------------------------------

  /** The widths of the four columns of the text report. */
  datatype Widths = Widths(name: int, objects: int, heap: int, retained: int)

  /** The texts of a line's four cells: a record's label and its figures
      as `Long.toString` prints them. */
  datatype Cells = Cells(name: string, objects: string, heap: string, retained: string)

  function Printed(r: ClassRecord): Cells {
    Cells(r.name, IntToString(r.objects), IntToString(r.usedHeap), IntToString(r.retained))
  }

  function PrintedAll(records: seq<ClassRecord>): (r: seq<Cells>)
    ensures |r| == |records|
  {
    if records == [] then [] else PrintedAll(records[..|records| - 1]) + [Printed(records[|records| - 1])]
  }

  lemma PrintedStep(records: seq<ClassRecord>, i: int)
    requires 0 <= i < |records|
    ensures PrintedAll(records[..i + 1]) == PrintedAll(records[..i]) + [Printed(records[i])]
  {
    assert records[..i + 1][..i] == records[..i];
  }

  const LabelHeader: string := "Class Name"
  const ObjectsHeader: string := "Objects"
  const HeapHeader: string := "Heap"
  const RetainedHeader: string := "Retained Heap"

  const Headers: Cells := Cells(LabelHeader, ObjectsHeader, HeapHeader, RetainedHeader)

  function Size(c: Cells): Widths {
    Widths(|c.name|, |c.objects|, |c.heap|, |c.retained|)
  }

  function Max(a: int, b: int): int {
    if a >= b then a else b
  }

  function Wider(w: Widths, v: Widths): Widths {
    Widths(Max(w.name, v.name), Max(w.objects, v.objects), Max(w.heap, v.heap), Max(w.retained, v.retained))
  }

  /** The widths of the headers, widened to the longest text of any line. */
  function Widest(lines: seq<Cells>): Widths
  {
    if lines == [] then Size(Headers)
    else Wider(Widest(lines[..|lines| - 1]), Size(lines[|lines| - 1]))
  }

  /** Every cell fits its column. */
  predicate Fits(c: Cells, w: Widths) {
    |c.name| <= w.name && |c.objects| <= w.objects && |c.heap| <= w.heap && |c.retained| <= w.retained
  }

  /** Every header and every line fits the widths. */
  lemma {:induction false} WidestFits(lines: seq<Cells>)
    ensures Fits(Headers, Widest(lines))
    ensures forall i :: 0 <= i < |lines| ==> Fits(lines[i], Widest(lines))
  {
    if lines != [] {
      var n := |lines| - 1;
      WidestFits(lines[..n]);
      forall i | 0 <= i < n ensures lines[i] == lines[..n][i] {
      }
    }
  }

  /** The columns of the text report. */
  datatype Column = LabelColumn | ObjectsColumn | HeapColumn | RetainedColumn

  function At(w: Widths, c: Column): int {
    match c
    case LabelColumn => w.name
    case ObjectsColumn => w.objects
    case HeapColumn => w.heap
    case RetainedColumn => w.retained
  }

  /** No width is wider than needed: each is its header's or some line's. */
  lemma {:induction false} WidestIsLeast(lines: seq<Cells>, c: Column)
    ensures At(Widest(lines), c) == At(Size(Headers), c) ||
            exists i :: 0 <= i < |lines| && At(Size(lines[i]), c) == At(Widest(lines), c)
  {
    if lines != [] {
      var n := |lines| - 1;
      var init := lines[..n];
      WidestIsLeast(init, c);
      if At(Widest(lines), c) != At(Size(Headers), c) && At(Widest(lines), c) != At(Size(lines[n]), c) {
        var i :| 0 <= i < n && At(Size(init[i]), c) == At(Widest(init), c);
        assert lines[i] == init[i];
      }
    }
  }

  /** The width of a table line without its line break. */
  function RuleWidth(w: Widths): int {
    2 + w.name + 3 + w.objects + 3 + w.heap + 3 + w.retained + 2
  }

  function Rule(w: Widths): string {
    Fill('-', RuleWidth(w)) + "\r\n"
  }

  /** A cell with the text on the left, filled up with blanks. */
  function LeftCell(text: string, width: int): (r: string)
    ensures |text| <= width ==> |r| == width && r[..|text|] == text
  {
    text + Fill(' ', width - |text|)
  }

  /** A cell with the text on the right, blanks before it. */
  function RightCell(text: string, width: int): (r: string)
    ensures |text| <= width ==> |r| == width && r[width - |text|..] == text
  {
    Fill(' ', width - |text|) + text
  }

  /** A table line of four cells. */
  function Row(a: string, b: string, c: string, d: string): string {
    "| " + a + " | " + b + " | " + c + " | " + d + " |\r\n"
  }

  /** The heading line: every header on the left of its cell. */
  function HeaderLine(w: Widths): string {
    Row(LeftCell(LabelHeader, w.name), LeftCell(ObjectsHeader, w.objects),
        LeftCell(HeapHeader, w.heap), LeftCell(RetainedHeader, w.retained))
  }

  /** A record's line: the label on the left, the figures on the right. */
  function RecordLine(c: Cells, w: Widths): string {
    Row(LeftCell(c.name, w.name), RightCell(c.objects, w.objects), RightCell(c.heap, w.heap), RightCell(c.retained, w.retained))
  }

  function RecordLines(lines: seq<Cells>, w: Widths): (r: seq<string>)
    ensures |r| == |lines|
  {
    if lines == [] then [] else RecordLines(lines[..|lines| - 1], w) + [RecordLine(lines[|lines| - 1], w)]
  }

  function Join(lines: seq<string>): string {
    if lines == [] then "" else Join(lines[..|lines| - 1]) + lines[|lines| - 1]
  }

  /** The whole report: a rule, the headers, a rule, a line per record, a rule. */
  function TextReport(lines: seq<Cells>, w: Widths): string {
    Rule(w) + HeaderLine(w) + Rule(w) + Join(RecordLines(lines, w)) + Rule(w)
  }

  /** Where the objects, heap and retained columns begin. */
  function ObjectsStart(w: Widths): int { 2 + w.name + 3 }
  function HeapStart(w: Widths): int { ObjectsStart(w) + w.objects + 3 }
  function RetainedStart(w: Widths): int { HeapStart(w) + w.heap + 3 }

  /** The cells of a line sit between the separators. */
  lemma RowCells(a: string, b: string, c: string, d: string, w: Widths)
    requires |a| == w.name && |b| == w.objects && |c| == w.heap && |d| == w.retained
    ensures |Row(a, b, c, d)| == RuleWidth(w) + 2
    ensures Row(a, b, c, d)[2..2 + w.name] == a
    ensures Row(a, b, c, d)[ObjectsStart(w)..ObjectsStart(w) + w.objects] == b
    ensures Row(a, b, c, d)[HeapStart(w)..HeapStart(w) + w.heap] == c
    ensures Row(a, b, c, d)[RetainedStart(w)..RetainedStart(w) + w.retained] == d
  {
    var sep, tail := " | ", " |\r\n";
    var p1 := "| " + a + sep;
    var p2 := p1 + b + sep;
    var p3 := p2 + c + sep;
    var r := Row(a, b, c, d);
    assert r == p3 + d + tail;
    Associative(p3, d, tail);
    Associative(p2, c, sep);
    Associative(p1, b, sep);
    CellAt(p3, d, tail);
    CellAt(p2, c, sep);
    CellAt(p1, b, sep);
    CellAt("| ", a, sep);
    InPrefix(p3, d + tail, |p2|, |p2| + |c|);
    InPrefix(p3, d + tail, |p1|, |p1| + |b|);
    InPrefix(p2, c + sep, |p1|, |p1| + |b|);
    InPrefix(p3, d + tail, 2, 2 + |a|);
    InPrefix(p2, c + sep, 2, 2 + |a|);
    InPrefix(p1, b + sep, 2, 2 + |a|);
  }

  /** A cell between two pieces of text sits right after the first. */
  lemma CellAt(pre: string, cell: string, post: string)
    ensures (pre + cell + post)[|pre|..|pre| + |cell|] == cell
  {
  }

  /** A slice within the first part of a string is a slice of that part. */
  lemma InPrefix(p: string, rest: string, i: int, j: int)
    requires 0 <= i <= j <= |p|
    ensures (p + rest)[i..j] == p[i..j]
  {
  }

  lemma RecordLineCells(c: Cells, w: Widths)
    requires Fits(c, w)
    ensures |RecordLine(c, w)| == RuleWidth(w) + 2
    ensures RecordLine(c, w)[2..2 + |c.name|] == c.name
    ensures RecordLine(c, w)[ObjectsStart(w)..ObjectsStart(w) + w.objects] == RightCell(c.objects, w.objects)
    ensures RecordLine(c, w)[HeapStart(w)..HeapStart(w) + w.heap] == RightCell(c.heap, w.heap)
    ensures RecordLine(c, w)[RetainedStart(w)..RetainedStart(w) + w.retained] == RightCell(c.retained, w.retained)
  {
    var a := LeftCell(c.name, w.name);
    RowCells(a, RightCell(c.objects, w.objects), RightCell(c.heap, w.heap), RightCell(c.retained, w.retained), w);
    assert RecordLine(c, w)[2..2 + |c.name|] == a[..|c.name|];
  }

  lemma HeaderLineWidth(w: Widths)
    requires Fits(Headers, w)
    ensures |HeaderLine(w)| == RuleWidth(w) + 2
  {
    RowCells(LeftCell(LabelHeader, w.name), LeftCell(ObjectsHeader, w.objects),
             LeftCell(HeapHeader, w.heap), LeftCell(RetainedHeader, w.retained), w);
  }

  /** A printed number starts with a minus sign or a digit and ends with a
      digit, so trimming leaves it alone. */
  lemma NumberIsVisible(i: int)
    ensures Visible(IntToString(i))
  {
    var d := NatToString(if i < 0 then -i else i);
    assert IsDigit(d[0]) && IsDigit(d[|d| - 1]);
    if i < 0 {
      assert IntToString(i) == "-" + d;
    }
  }

  predicate Visible(t: string) {
    t != [] && !IsTrimmable(t[0]) && !IsTrimmable(t[|t| - 1])
  }

  lemma {:induction false} TrimStartPadded(n: int, t: string)
    requires t != [] && !IsTrimmable(t[0])
    ensures TrimStart(Fill(' ', n) + t) == t
    decreases n
  {
    if n > 0 {
      var s := Fill(' ', n) + t;
      assert s[0] == ' ';
      assert s[1..] == Fill(' ', n - 1) + t;
      TrimStartPadded(n - 1, t);
    } else {
      assert Fill(' ', n) + t == t;
    }
  }

  /** A right-aligned cell trimmed is its text again. */
  lemma TrimRightCell(t: string, width: int)
    requires Visible(t)
    ensures Trim(RightCell(t, width)) == t
  {
    TrimStartPadded(width - |t|, t);
  }

  /** Each record's line can be read back: its label begins the first
      column and every figure column trims to the printed number. */
  lemma RecordLineReadBack(r: ClassRecord, w: Widths)
    requires Fits(Printed(r), w)
    ensures |RecordLine(Printed(r), w)| == RuleWidth(w) + 2
    ensures RecordLine(Printed(r), w)[2..2 + |r.name|] == r.name
    ensures ParseInt(Trim(RecordLine(Printed(r), w)[ObjectsStart(w)..ObjectsStart(w) + w.objects])) == Some(r.objects)
    ensures ParseInt(Trim(RecordLine(Printed(r), w)[HeapStart(w)..HeapStart(w) + w.heap])) == Some(r.usedHeap)
    ensures ParseInt(Trim(RecordLine(Printed(r), w)[RetainedStart(w)..RetainedStart(w) + w.retained])) == Some(r.retained)
  {
    var c := Printed(r);
    RecordLineCells(c, w);
    NumberIsVisible(r.objects);
    NumberIsVisible(r.usedHeap);
    NumberIsVisible(r.retained);
    TrimRightCell(c.objects, w.objects);
    TrimRightCell(c.heap, w.heap);
    TrimRightCell(c.retained, w.retained);
    IntToStringRoundTrip(r.objects);
    IntToStringRoundTrip(r.usedHeap);
    IntToStringRoundTrip(r.retained);
  }

  lemma {:induction false} RecordLinesAt(lines: seq<Cells>, w: Widths)
    ensures forall i :: 0 <= i < |lines| ==> RecordLines(lines, w)[i] == RecordLine(lines[i], w)
  {
    if lines != [] {
      var n := |lines| - 1;
      RecordLinesAt(lines[..n], w);
      forall i | 0 <= i < n ensures RecordLines(lines, w)[i] == RecordLine(lines[i], w) {
        assert lines[i] == lines[..n][i];
      }
    }
  }

  lemma MulStep(i: int, L: int)
    ensures (i + 1) * L == i * L + L
  {
  }

  lemma {:induction false} MulBelow(i: int, n: int, L: int)
    requires 0 <= i < n && L >= 0
    ensures i * L + L <= n * L
    decreases n - i
  {
    MulStep(i, L);
    if i + 1 < n {
      MulBelow(i + 1, n, L);
      MulStep(i + 1, L);
    }
  }

  /** Lines of one width, joined: the `i`th line occupies the `i`th block. */
  lemma {:induction false} JoinAt(lines: seq<string>, L: int)
    requires L >= 0 && forall i :: 0 <= i < |lines| ==> |lines[i]| == L
    ensures |Join(lines)| == |lines| * L
    ensures forall i :: 0 <= i < |lines| ==> i * L + L <= |Join(lines)| && Join(lines)[i * L..i * L + L] == lines[i]
  {
    if lines != [] {
      var n := |lines| - 1;
      JoinAt(lines[..n], L);
      forall i | 0 <= i < |lines|
        ensures 0 <= i * L && i * L + L <= |Join(lines)| && Join(lines)[i * L..i * L + L] == lines[i]
      {
        JoinBlock(lines, L, i);
      }
      JoinBlock(lines, L, n);
    }
  }

  /** One step of `JoinAt`: the blocks of the joined prefix stay in place
      and the last line follows them. */
  lemma JoinBlock(lines: seq<string>, L: int, i: int)
    requires L >= 0 && forall k :: 0 <= k < |lines| ==> |lines[k]| == L
    requires 0 <= i < |lines|
    requires |Join(lines[..|lines| - 1])| == (|lines| - 1) * L
    requires forall k :: 0 <= k < |lines| - 1 ==>
               k * L + L <= |Join(lines[..|lines| - 1])| && Join(lines[..|lines| - 1])[k * L..k * L + L] == lines[..|lines| - 1][k]
    ensures |Join(lines)| == |lines| * L
    ensures 0 <= i * L && i * L + L <= |Join(lines)| && Join(lines)[i * L..i * L + L] == lines[i]
  {
    var n := |lines| - 1;
    var front := lines[..n];
    assert Join(lines) == Join(front) + lines[n];
    BlockOf(Join(front), lines[n], L, i, n);
    if i < n {
      assert front[i] == lines[i];
    }
  }

  /** The blocks of `a + b` when `a` is `n` blocks and `b` one more. */
  lemma BlockOf(a: string, b: string, L: int, i: int, n: int)
    requires L >= 0 && |a| == n * L && |b| == L && 0 <= i <= n
    ensures |a + b| == (n + 1) * L
    ensures 0 <= i * L && i * L + L <= |a + b|
    ensures i < n ==> i * L + L <= |a| && (a + b)[i * L..i * L + L] == a[i * L..i * L + L]
    ensures i == n ==> (a + b)[i * L..i * L + L] == b
  {
    MulStep(n, L);
    MulNonneg(i, L);
    if i < n {
      MulBelow(i, n, L);
    }
  }

  lemma MulNonneg(i: int, L: int)
    requires i >= 0 && L >= 0
    ensures i * L >= 0
  {
  }

  lemma Mul3(i: int, L: int)
    ensures (3 + i) * L == 3 * L + i * L
  {
  }

  lemma Mul4(n: int, L: int)
    ensures (4 + n) * L == 3 * L + n * L + L
  {
  }

  /** The record lines of a report whose lines all fit: blocks of the rule's
      width, the `i`th holding the `i`th line. */
  lemma RecordBlocks(lines: seq<Cells>, w: Widths, L: int)
    requires L == RuleWidth(w) + 2 && Fits(Headers, w)
    requires forall i :: 0 <= i < |lines| ==> Fits(lines[i], w)
    ensures |Join(RecordLines(lines, w))| == |lines| * L
    ensures forall i :: 0 <= i < |lines| ==>
              0 <= i * L && i * L + L <= |lines| * L && Join(RecordLines(lines, w))[i * L..i * L + L] == RecordLine(lines[i], w)
  {
    RecordLinesAt(lines, w);
    var rows := RecordLines(lines, w);
    forall i | 0 <= i < |rows| ensures |rows[i]| == L {
      RecordLineCells(lines[i], w);
    }
    JoinAt(rows, L);
    forall i | 0 <= i < |lines| ensures 0 <= i * L {
      MulNonneg(i, L);
    }
  }

  lemma BlockInside(head: string, body: string, tail: string, L: int, k: int)
    requires |head| == 3 * L && 0 <= k && k + L <= |body|
    ensures (head + body + tail)[3 * L + k..3 * L + k + L] == body[k..k + L]
  {
  }

  /** A report whose lines all fit its widths is `4 + n` lines of the
      rule's width... */
  lemma ReportLength(lines: seq<Cells>, w: Widths, L: int)
    requires L == RuleWidth(w) + 2 && Fits(Headers, w)
    requires forall i :: 0 <= i < |lines| ==> Fits(lines[i], w)
    ensures |TextReport(lines, w)| == (4 + |lines|) * L
  {
    HeaderLineWidth(w);
    RecordBlocks(lines, w, L);
    var rule := Rule(w);
    ReportPieces(lines, w, rule + HeaderLine(w) + rule, Join(RecordLines(lines, w)), rule);
    Mul4(|lines|, L);
  }

  /** ...and its `3 + i`th line, after the rule, the headers and the rule,
      is the line of the `i`th record. */
  lemma ReportLine(lines: seq<Cells>, w: Widths, L: int, i: int)
    requires L == RuleWidth(w) + 2 && Fits(Headers, w)
    requires forall i :: 0 <= i < |lines| ==> Fits(lines[i], w)
    requires 0 <= i < |lines|
    ensures 0 <= (3 + i) * L <= (3 + i) * L + L <= |TextReport(lines, w)|
    ensures TextReport(lines, w)[(3 + i) * L..(3 + i) * L + L] == RecordLine(lines[i], w)
  {
    HeaderLineWidth(w);
    var rule := Rule(w);
    var head := rule + HeaderLine(w) + rule;
    var body := Join(RecordLines(lines, w));
    ReportPieces(lines, w, head, body, rule);
    RecordLineOfBody(lines, w, L, i, body);
    ReportLineAt(head, body, rule, L, i, RecordLine(lines[i], w));
  }

  lemma RecordLineOfBody(lines: seq<Cells>, w: Widths, L: int, i: int, body: string)
    requires L == RuleWidth(w) + 2 && Fits(Headers, w)
    requires forall i :: 0 <= i < |lines| ==> Fits(lines[i], w)
    requires body == Join(RecordLines(lines, w)) && 0 <= i < |lines|
    ensures 0 <= i * L && i * L + L <= |body| && body[i * L..i * L + L] == RecordLine(lines[i], w)
  {
    RecordBlocks(lines, w, L);
  }

  /** The `i`th block of the body is the `3 + i`th line of the report. */
  lemma ReportLineAt(head: string, body: string, rule: string, L: int, i: int, line: string)
    requires |head| == 3 * L && 0 <= i * L && i * L + L <= |body| && body[i * L..i * L + L] == line
    ensures 0 <= (3 + i) * L <= (3 + i) * L + L <= |head + body + rule|
    ensures (head + body + rule)[(3 + i) * L..(3 + i) * L + L] == line
  {
    Mul3(i, L);
    BlockInside(head, body, rule, L, i * L);
  }

  lemma ReportPieces(lines: seq<Cells>, w: Widths, head: string, body: string, rule: string)
    requires rule == Rule(w) && head == rule + HeaderLine(w) + rule && body == Join(RecordLines(lines, w))
    requires RuleWidth(w) >= 0 && |HeaderLine(w)| == RuleWidth(w) + 2
    ensures |rule| == RuleWidth(w) + 2 && |head| == 3 * (RuleWidth(w) + 2)
    ensures TextReport(lines, w) == head + body + rule
  {
  }

  /** The width loop of `generateHistogramRecordTextReport`. */
  method ColumnWidths(records: seq<ClassRecord>) returns (w: Widths)
    ensures w == Widest(PrintedAll(records))
  {
    w := Size(Headers);
    for i := 0 to |records|
      invariant w == Widest(PrintedAll(records[..i]))
    {
      var v := Size(Printed(records[i]));
      PrintedStep(records, i);
      WidestStep(PrintedAll(records[..i]), Printed(records[i]));
      if v.name > w.name {
        w := w.(name := v.name);
      }
      if v.objects > w.objects {
        w := w.(objects := v.objects);
      }
      if v.heap > w.heap {
        w := w.(heap := v.heap);
      }
      if v.retained > w.retained {
        w := w.(retained := v.retained);
      }
    }
    assert records[..|records|] == records;
  }

  lemma WidestStep(lines: seq<Cells>, c: Cells)
    ensures Widest(lines + [c]) == Wider(Widest(lines), Size(c))
  {
    assert (lines + [c])[..|lines|] == lines;
  }

  method AppendRule(report: string, w: Widths) returns (r: string)
    ensures r == report + Rule(w)
  {
    r := AppendStringAndFillUp(report, None, '-', RuleWidth(w));
    r := r + "\r\n";
  }

  function Cell(text: string, width: int, right: bool): string {
    if right then RightCell(text, width) else LeftCell(text, width)
  }

  method AppendCell(report: string, text: string, width: int, right: bool) returns (r: string)
    ensures r == report + Cell(text, width, right)
  {
    if right {
      r := AppendPreFillAndString(report, Some(text), ' ', width);
      Associative(report, Fill(' ', width - |text|), text);
    } else {
      r := AppendStringAndFillUp(report, Some(text), ' ', width);
      Associative(report, text, Fill(' ', width - |text|));
    }
  }

  lemma EmptyPrefix(a: string)
    ensures "" + a == a
  {
  }

  lemma Associative(a: string, b: string, c: string)
    ensures a + b + c == a + (b + c)
  {
  }

  /** A table line: the first text filled up after it, the others filled
      up after (`right` false) or before (`right` true) their text. */
  method AppendRow(report: string, c: Cells, w: Widths, right: bool) returns (r: string)
    ensures r == report + Row(LeftCell(c.name, w.name), Cell(c.objects, w.objects, right),
                              Cell(c.heap, w.heap, right), Cell(c.retained, w.retained, right))
  {
    r := report + "| ";
    r := AppendCell(r, c.name, w.name, false);
    r := r + " | ";
    r := AppendCell(r, c.objects, w.objects, right);
    r := r + " | ";
    r := AppendCell(r, c.heap, w.heap, right);
    r := r + " | ";
    r := AppendCell(r, c.retained, w.retained, right);
    r := r + " |\r\n";
    RowAppended(report, LeftCell(c.name, w.name), Cell(c.objects, w.objects, right),
                Cell(c.heap, w.heap, right), Cell(c.retained, w.retained, right));
  }

  /** Appending a line piece by piece appends the line. */
  lemma RowAppended(report: string, a: string, b: string, c: string, d: string)
    ensures report + "| " + a + " | " + b + " | " + c + " | " + d + " |\r\n" == report + Row(a, b, c, d)
  {
  }

  lemma ReportStep(head: string, records: seq<ClassRecord>, w: Widths, i: int)
    requires 0 <= i < |records|
    ensures head + Join(RecordLines(PrintedAll(records[..i + 1]), w)) ==
            (head + Join(RecordLines(PrintedAll(records[..i]), w))) + RecordLine(Printed(records[i]), w)
  {
    PrintedStep(records, i);
    var cs := PrintedAll(records[..i]);
    var c := Printed(records[i]);
    assert (cs + [c])[..|cs|] == cs;
    var rs := RecordLines(cs, w);
    assert RecordLines(cs + [c], w) == rs + [RecordLine(c, w)];
    assert (rs + [RecordLine(c, w)])[..|rs|] == rs;
  }

  /** The record loop of the text report. */
  method AppendRecordLines(head: string, records: seq<ClassRecord>, w: Widths) returns (report: string)
    ensures report == head + Join(RecordLines(PrintedAll(records), w))
  {
    report := head;
    for i := 0 to |records|
      invariant report == head + Join(RecordLines(PrintedAll(records[..i]), w))
    {
      ReportStep(head, records, w, i);
      report := AppendRow(report, Printed(records[i]), w, true);
    }
    assert records[..|records|] == records;
  }

  lemma HeaderRow(w: Widths)
    ensures HeaderLine(w) == Row(LeftCell(Headers.name, w.name), Cell(Headers.objects, w.objects, false),
                                 Cell(Headers.heap, w.heap, false), Cell(Headers.retained, w.retained, false))
  {
  }

  /** The three heading lines of the text report. */
  method AppendHeading(report: string, w: Widths) returns (r: string)
    ensures r == report + Rule(w) + HeaderLine(w) + Rule(w)
  {
    r := AppendRule(report, w);
    r := AppendRow(r, Headers, w, false);
    HeaderRow(w);
    r := AppendRule(r, w);
  }

  /** `generateClassHistogramRecordTextReport`: the class records sorted by
      the comparator, laid out in columns as wide as their widest entry. */
  method ClassTextReport(h: Histogram, cmp: (ClassRecord, ClassRecord) -> int) returns (r: Result<string, HistogramError>)
    ensures r.Failure? <==> h.classRecords.None?
    ensures r.Success? ==>
      var lines := PrintedAll(SortBy(h.classRecords.value, cmp));
      r.value == TextReport(lines, Widest(lines))
  {
    if h.classRecords.None? {
      return Failure(NullRecords);
    }
    var records := SortBy(h.classRecords.value, cmp);
    var w := ColumnWidths(records);
    var report := AppendHeading("", w);
    assert report == Rule(w) + HeaderLine(w) + Rule(w) by {
      EmptyPrefix(Rule(w));
    }
    report := AppendRecordLines(report, records, w);
    report := AppendRule(report, w);
    assert report == TextReport(PrintedAll(records), w);
    r := Success(report);
  }

  // ---------------------------------------------------------------------
  // The textual description (`toString`)
  // ---------------------------------------------------------------------

  /** What `toString` prints of a class or class-loader record. */
  datatype Figures = Figures(name: string, objects: int, usedHeap: int, retained: int)

  function ClassFigures(records: seq<ClassRecord>): (r: seq<Figures>)
    ensures |r| == |records|
  {
    if records == [] then []
    else
      var c := records[|records| - 1];
      ClassFigures(records[..|records| - 1]) + [Figures(c.name, c.objects, c.usedHeap, c.retained)]
  }

  function LoaderFigures(loaders: seq<LoaderRecord>): (r: seq<Figures>)
    ensures |r| == |loaders|
  {
    if loaders == [] then []
    else
      var l := loaders[|loaders| - 1];
      LoaderFigures(loaders[..|loaders| - 1]) + [Figures(l.name, l.objects, l.usedHeap, l.retained)]
  }

  /** The width of each figure column. */
  const FigureWidth: int := 17

  /** A retained heap as `toString` prints it: a negative value, meaning
      "at least", as `>=` and its formatted magnitude. */
  function RetainedFigure(format: int -> string, retained: int): string {
    if retained < 0 then ">=" + format(-retained) else format(retained)
  }

  /** A line of `toString`'s statistics: three figure cells, two blanks,
      a label. */
  function FigureLine(a: string, b: string, c: string, name: string): string {
    a + b + c + "  " + name + "\n"
  }

  /** One line of `appendRecords`: the three figures right-aligned in
      columns of 17, two blanks, the label. */
  function FigureRow(format: int -> string, f: Figures): string {
    FigureLine(RightCell(format(f.objects), FigureWidth), RightCell(format(f.usedHeap), FigureWidth),
               RightCell(RetainedFigure(format, f.retained), FigureWidth), f.name)
  }

  function FigureRows(format: int -> string, rows: seq<Figures>): string {
    if rows == [] then "" else FigureRows(format, rows[..|rows| - 1]) + FigureRow(format, rows[|rows| - 1])
  }

  /** The title and column headings of one statistics section. */
  function Section(title: string): string {
    "\n\n" + title + ":\n" +
    FigureLine(RightCell("Objects", FigureWidth), RightCell("Shallow Heap", FigureWidth),
               RightCell("Retained Heap", FigureWidth), "Class Name")
  }

  /** The first line: the label, how many class loaders and classes the
      histogram holds (none when a list is null), and its totals. */
  function Summary(h: Histogram): string {
    "Histogram " + h.name + " with " + IntToString(if h.loaderRecords.Some? then |h.loaderRecords.value| else 0) +
    " class loaders, " + IntToString(if h.classRecords.Some? then |h.classRecords.value| else 0) + " classes, " +
    IntToString(h.objects) + " objects, " + IntToString(h.usedHeap) + " used heap bytes:"
  }

  function ClassSection(h: Histogram, format: int -> string): string {
    if h.classRecords.Some? then Section("CLASS STATISTICS") + FigureRows(format, ClassFigures(h.classRecords.value)) else ""
  }

  function LoaderSection(h: Histogram, format: int -> string): string {
    if h.loaderRecords.Some? then Section("CLASSLOADER STATISTICS") + FigureRows(format, LoaderFigures(h.loaderRecords.value)) else ""
  }

  /** `toString`: the summary, then a section for each list that is not null. */
  function Description(h: Histogram, format: int -> string): string {
    Summary(h) + ClassSection(h, format) + LoaderSection(h, format)
  }

  /** Where the label begins on a line of figures and on a heading line. */
  const LabelStart: int := 3 * FigureWidth + 2

  /** Three cells of the figure width put the label at column 53. */
  lemma FigureLineColumns(a: string, b: string, c: string, name: string)
    requires |a| == FigureWidth && |b| == FigureWidth && |c| == FigureWidth
    ensures |FigureLine(a, b, c, name)| == LabelStart + |name| + 1
    ensures FigureLine(a, b, c, name)[0..FigureWidth] == a
    ensures FigureLine(a, b, c, name)[FigureWidth..2 * FigureWidth] == b
    ensures FigureLine(a, b, c, name)[2 * FigureWidth..3 * FigureWidth] == c
    ensures FigureLine(a, b, c, name)[LabelStart..] == name + "\n"
  {
    var line := FigureLine(a, b, c, name);
    assert line == (a + b + c + "  ") + (name + "\n");
  }

  /** When the figures fit their columns, every line of figures is three
      17-character cells, each holding its figure right-aligned, then two
      blanks and the label, which starts at column 53 where the heading
      "Class Name" does. */
  lemma FigureRowColumns(format: int -> string, f: Figures)
    requires |format(f.objects)| <= FigureWidth && |format(f.usedHeap)| <= FigureWidth
    requires |RetainedFigure(format, f.retained)| <= FigureWidth
    ensures |FigureRow(format, f)| == LabelStart + |f.name| + 1
    ensures FigureRow(format, f)[0..FigureWidth] == RightCell(format(f.objects), FigureWidth)
    ensures FigureRow(format, f)[FigureWidth..2 * FigureWidth] == RightCell(format(f.usedHeap), FigureWidth)
    ensures FigureRow(format, f)[2 * FigureWidth..3 * FigureWidth] ==
            RightCell(RetainedFigure(format, f.retained), FigureWidth)
    ensures FigureRow(format, f)[LabelStart..] == f.name + "\n"
  {
    var a, b, c := RightCell(format(f.objects), FigureWidth), RightCell(format(f.usedHeap), FigureWidth),
                   RightCell(RetainedFigure(format, f.retained), FigureWidth);
    FigureLineColumns(a, b, c, f.name);
  }

  /** The heading "Class Name" begins at column 53 of the heading line. */
  lemma SectionColumns(title: string)
    ensures |Section(title)| == |title| + 4 + LabelStart + 11
    ensures Section(title)[|title| + 4 + LabelStart..] == "Class Name\n"
  {
    var a, b, c := RightCell("Objects", FigureWidth), RightCell("Shallow Heap", FigureWidth),
                   RightCell("Retained Heap", FigureWidth);
    FigureLineColumns(a, b, c, "Class Name");
    var head := "\n\n" + title + ":\n";
    assert |head| == |title| + 4;
    assert Section(title) == head + FigureLine(a, b, c, "Class Name");
  }

  lemma FigureRowsStep(start: string, format: int -> string, rows: seq<Figures>, i: int)
    requires 0 <= i < |rows|
    ensures start + FigureRows(format, rows[..i + 1]) == (start + FigureRows(format, rows[..i])) + FigureRow(format, rows[i])
  {
    assert rows[..i + 1][..i] == rows[..i];
  }

  /** One line of `appendRecords`. */
  method AppendFigureRow(buf: string, format: int -> string, f: Figures) returns (r: string)
    ensures r == buf + FigureRow(format, f)
  {
    var objects := AlignRight(format(f.objects), FigureWidth);
    var usedHeap := AlignRight(format(f.usedHeap), FigureWidth);
    var shown := if f.retained < 0 then ">=" + format(-f.retained) else format(f.retained);
    assert shown == RetainedFigure(format, f.retained);
    var retained := AlignRight(shown, FigureWidth);
    var name := AlignLeft(f.name, 0);
    assert objects == RightCell(format(f.objects), FigureWidth);
    assert usedHeap == RightCell(format(f.usedHeap), FigureWidth);
    assert retained == RightCell(RetainedFigure(format, f.retained), FigureWidth);
    assert name == f.name;
    assert FigureLine(objects, usedHeap, retained, name) == FigureRow(format, f);
    r := buf + objects + usedHeap + retained + "  " + name + "\n";
    FigureLineAppended(buf, objects, usedHeap, retained, name);
  }

  lemma FigureLineAppended(buf: string, a: string, b: string, c: string, name: string)
    ensures buf + a + b + c + "  " + name + "\n" == buf + FigureLine(a, b, c, name)
  {
  }

  /** `appendRecords`: one line per record, in list order. */
  method AppendRecords(buf: string, format: int -> string, rows: seq<Figures>) returns (r: string)
    ensures r == buf + FigureRows(format, rows)
  {
    r := buf;
    for i := 0 to |rows|
      invariant r == buf + FigureRows(format, rows[..i])
    {
      FigureRowsStep(buf, format, rows, i);
      r := AppendFigureRow(r, format, rows[i]);
    }
    assert rows[..|rows|] == rows;
  }

  /** The heading of one section, as `toString` appends it. */
  method AppendSection(buf: string, title: string) returns (r: string)
    ensures r == buf + Section(title)
  {
    var objects := AlignRight("Objects", FigureWidth);
    var usedHeap := AlignRight("Shallow Heap", FigureWidth);
    var retained := AlignRight("Retained Heap", FigureWidth);
    var name := AlignLeft("Class Name", 0);
    var head := "\n\n" + title + ":\n";
    r := buf + head + objects + usedHeap + retained + "  " + name + "\n";
    FigureLineAppended(buf + head, objects, usedHeap, retained, name);
    Associative(buf, head, FigureLine(objects, usedHeap, retained, name));
  }

  /** `toString`, with the locale's number format as a parameter. */
  method ToString(h: Histogram, format: int -> string) returns (r: string)
    ensures r == Description(h, format)
  {
    r := Summary(h);
    ghost var summary := r;
    if h.classRecords.Some? {
      r := AppendSection(r, "CLASS STATISTICS");
      r := AppendRecords(r, format, ClassFigures(h.classRecords.value));
      Associative(summary, Section("CLASS STATISTICS"), FigureRows(format, ClassFigures(h.classRecords.value)));
    }
    assert r == summary + ClassSection(h, format);
    ghost var before := r;
    if h.loaderRecords.Some? {
      r := AppendSection(r, "CLASSLOADER STATISTICS");
      r := AppendRecords(r, format, LoaderFigures(h.loaderRecords.value));
      Associative(before, Section("CLASSLOADER STATISTICS"), FigureRows(format, LoaderFigures(h.loaderRecords.value)));
    }
  }
}
