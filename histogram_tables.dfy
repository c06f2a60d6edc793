/** A histogram shown as a result table (one row per class record) and as
    a result tree grouped by class loader (a row per loader record, whose
    children are its class records). */
module HistogramTables {
  import opened Wrappers
  import opened Histograms

  // ---------------------------------------------------------------------
  // Columns and cells
  // ---------------------------------------------------------------------

  /** What a column holds: text or a number. */
  datatype Kind = Text | Number

  /** A column: its heading, what it holds, and whether it sorts in
      descending order by default. */
  datatype Column = Column(heading: string, kind: Kind, descending: bool)

  /** The value of a cell. */
  datatype CellValue = Label(text: string) | Figure(value: int)

  function KindOf(v: CellValue): Kind {
    if v.Label? then Text else Number
  }

  /** The columns of the class table: the name, the object count and the
      shallow heap, the last sorted largest first. */
  const TableColumns: seq<Column> :=
    [Column("Class Name", Text, false), Column("Objects", Number, false), Column("Shallow Heap", Number, true)]

  /** The columns of the tree: the same, headed by the loader or class. */
  const TreeColumns: seq<Column> :=
    [Column("Class Loader / Class", Text, false), Column("Objects", Number, false), Column("Shallow Heap", Number, true)]

  /** What every histogram record shows: its label and two figures. */
  function RecordCell(name: string, objects: int, usedHeap: int, column: int): Option<CellValue>
  {
    if column == 0 then Some(Label(name))
    else if column == 1 then Some(Figure(objects))
    else if column == 2 then Some(Figure(usedHeap))
    else None
  }

  /** `getColumnValue` of the table: a class record's label, object count
      and shallow heap; nothing for any other column. */
  function ColumnValue(c: ClassRecord, column: int): Option<CellValue>
  {
    RecordCell(c.name, c.objects, c.usedHeap, column)
  }

  /** Each declared column of the table gets a value of the kind the column
      declares, the figure it sorts by is the one the record holds, and
      there is no value outside the declared columns. */
  lemma ColumnValuesMatchColumns(c: ClassRecord, column: int)
    ensures ColumnValue(c, column).Some? <==> 0 <= column < |TableColumns|
    ensures 0 <= column < |TableColumns| ==> KindOf(ColumnValue(c, column).value) == TableColumns[column].kind
    ensures ColumnValue(c, 0) == Some(Label(c.name))
    ensures ColumnValue(c, 1) == Some(Figure(c.objects)) && ColumnValue(c, 2) == Some(Figure(c.usedHeap))
  {
  }

  // ---------------------------------------------------------------------
  // Contexts
  // ---------------------------------------------------------------------

  /** The query a context offers, as the OQL helpers build it: the objects
      of one class, or the classes of one loader. */
  datatype Query = ObjectsOfClass(classId: int) | ClassesOfLoader(loaderId: int)

  /** A context: the object a row stands for and, in a histogram of the
      whole heap, a query that lists what the row counts. */
  datatype Context = Context(objectId: int, query: Option<Query>)

  /** `getContext` of the table: no context for a class record that does
      not stand for a class of the heap (a negative id, which every
      difference or intersection record has); otherwise the class, with the
      query of its objects only when the histogram is the default one. */
  function ClassContext(h: Histogram, c: ClassRecord): (r: Option<Context>)
    ensures r.None? <==> c.classId < 0
    ensures r.Some? ==> r.value.objectId == c.classId
    ensures r.Some? ==> (r.value.query.Some? <==> h.isDefault)
    ensures r.Some? && h.isDefault ==> r.value.query == Some(ObjectsOfClass(c.classId))
  {
    if c.classId < 0 then None
    else Some(Context(c.classId, if h.isDefault then Some(ObjectsOfClass(c.classId)) else None))
  }

  /** The class records a difference or an intersection builds all carry
      synthetic ids, so none of them has a context. */
  lemma DiffClassesHaveNoContext(r: Histogram, h: seq<LoaderRecord>, baseline: seq<LoaderRecord>, classRecords: seq<ClassRecord>)
    requires DiffClasses(h, baseline, classRecords)
    ensures forall j :: 0 <= j < |classRecords| ==> ClassContext(r, classRecords[j]).None?
  {
    forall j | 0 <= j < |classRecords| ensures ClassContext(r, classRecords[j]).None? {
      assert classRecords[j].classId < ClassIdBase;
    }
  }

  lemma MergedClassesHaveNoContext(r: Histogram, loaderRecords: seq<LoaderRecord>, classRecords: seq<ClassRecord>)
    requires MergedClasses(loaderRecords, classRecords)
    ensures forall j :: 0 <= j < |classRecords| ==> ClassContext(r, classRecords[j]).None?
  {
    forall j | 0 <= j < |classRecords| ensures ClassContext(r, classRecords[j]).None? {
      assert classRecords[j].classId < ClassIdBase;
    }
  }

  // ---------------------------------------------------------------------
  // The tree grouped by class loader
  // ---------------------------------------------------------------------

  /** A row of the tree: a loader record or one of its class records. */
  datatype Row = LoaderRow(loader: LoaderRecord) | ClassRow(record: ClassRecord)

  /** `getElements`: the loader records (null when the histogram has none). */
  function Elements(h: Histogram): (r: Option<seq<Row>>)
    ensures r.Some? <==> h.loaderRecords.Some?
    ensures r.Some? ==> |r.value| == |h.loaderRecords.value| &&
                        forall i :: 0 <= i < |r.value| ==> r.value[i] == LoaderRow(h.loaderRecords.value[i])
  {
    if h.loaderRecords.None? then None
    else Some(seq(|h.loaderRecords.value|, i requires 0 <= i < |h.loaderRecords.value| => LoaderRow(h.loaderRecords.value[i])))
  }

  /** `hasChildren`: only loader rows have children. */
  predicate HasChildren(row: Row) {
    row.LoaderRow?
  }

  /** `getChildren`: the class records of a loader row, in order; a class
      row cannot be opened (the source's cast fails). */
  function Children(row: Row): (r: Option<seq<Row>>)
    ensures r.Some? <==> HasChildren(row)
    ensures r.Some? ==> |r.value| == |row.loader.classes| &&
                        forall j :: 0 <= j < |r.value| ==> r.value[j] == ClassRow(row.loader.classes[j])
  {
    if row.ClassRow? then None
    else Some(seq(|row.loader.classes|, j requires 0 <= j < |row.loader.classes| => ClassRow(row.loader.classes[j])))
  }

  /** Every child of a loader row is a leaf: the tree is two levels deep. */
  lemma ChildrenAreLeaves(row: Row)
    requires HasChildren(row)
    ensures forall j :: 0 <= j < |Children(row).value| ==> !HasChildren(Children(row).value[j])
  {
  }

  /** `getColumnValue` of the tree: any record's label, object count and
      shallow heap. */
  function TreeColumnValue(row: Row, column: int): Option<CellValue>
  {
    match row
    case LoaderRow(l) => RecordCell(l.name, l.objects, l.usedHeap, column)
    case ClassRow(c) => RecordCell(c.name, c.objects, c.usedHeap, column)
  }

  /** The tree shows a class row exactly as the table shows the record, and
      every row fills exactly the tree's declared columns with values of
      their declared kinds. */
  lemma TreeColumnsAgree(row: Row, column: int)
    ensures row.ClassRow? ==> TreeColumnValue(row, column) == ColumnValue(row.record, column)
    ensures TreeColumnValue(row, column).Some? <==> 0 <= column < |TreeColumns|
    ensures 0 <= column < |TreeColumns| ==> KindOf(TreeColumnValue(row, column).value) == TreeColumns[column].kind
  {
  }

  /** `getContext` of the tree: a loader row stands for its loader and
      offers the query of the loader's classes, a class row is treated as in
      the table; a negative id gives no context. */
  function TreeContext(h: Histogram, row: Row): (r: Option<Context>)
    ensures row.LoaderRow? ==> (r.None? <==> row.loader.loaderId < 0)
    ensures row.LoaderRow? && r.Some? ==>
      r.value.objectId == row.loader.loaderId &&
      r.value.query == (if h.isDefault then Some(ClassesOfLoader(row.loader.loaderId)) else None)
  {
    match row
    case LoaderRow(l) =>
      if l.loaderId < 0 then None
      else Some(Context(l.loaderId, if h.isDefault then Some(ClassesOfLoader(l.loaderId)) else None))
    case ClassRow(c) => ClassContext(h, c)
  }

  /** A class row has the same context in the tree as in the table. */
  lemma TreeClassContextIsTableContext(h: Histogram, c: ClassRecord)
    ensures TreeContext(h, ClassRow(c)) == ClassContext(h, c)
    ensures TreeContext(h, ClassRow(c)).None? <==> c.classId < 0
  {
  }

  /** No row of the tree of a difference has a context: its loaders and
      their classes all carry synthetic ids. */
  lemma DiffTreeHasNoContext(r: Histogram, h: seq<LoaderRecord>, baseline: seq<LoaderRecord>, loaderRecords: seq<LoaderRecord>)
    requires DiffLoaders(h, baseline, loaderRecords)
    ensures forall i :: 0 <= i < |loaderRecords| ==> TreeContext(r, LoaderRow(loaderRecords[i])).None?
    ensures forall i, j :: 0 <= i < |loaderRecords| && 0 <= j < |loaderRecords[i].classes| ==>
              TreeContext(r, ClassRow(loaderRecords[i].classes[j])).None?
  {
    forall i | 0 <= i < |loaderRecords| ensures TreeContext(r, LoaderRow(loaderRecords[i])).None? {
      assert loaderRecords[i].loaderId == LoaderIdBase - 1 - i;
    }
    forall i, j | 0 <= i < |loaderRecords| && 0 <= j < |loaderRecords[i].classes|
      ensures TreeContext(r, ClassRow(loaderRecords[i].classes[j])).None?
    {
      assert loaderRecords[i].classes[j].classId < ClassIdBase;
    }
  }
}
