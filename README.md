# Memory Analyzer core, modelled in Dafny

This project models the bookkeeping core of the Eclipse Memory Analyzer (MAT) and proves properties of that model. MAT reads a Java heap dump and answers questions about it.

- **Class histograms** (module `Histograms`, `histogram.dfy`):
  - A histogram counts objects and shallow heap per class and per class loader.
  - The difference against a baseline and the intersection with another histogram build a table keyed by loader label and class label. They update its records in place and then merge the table into a new histogram with freshly numbered negative ids.
  - The table's records are map entries that the methods reassign, and hash-map iteration picks an arbitrary remaining key.
- **Histogram renderers** (`HistogramReports`, `histogram_reports.dfy`):
  - the padded `toString`, with its `alignLeft`/`alignRight` helpers;
  - the boxed text report, with its fill helpers;
  - the class and class-loader CSV reports.

  The `StringBuilder` becomes a string that each method extends. Each report is proved equal to a reference function, and the lemmas beside it read a line back (CSV fields, column positions, trimmed cells).
- **Histogram tables** (`HistogramTables`, `histogram_tables.dfy`): the histogram as a result table and as a tree grouped by class loader. Covers column values, contexts and children.
- **Query arguments** (`QueryArguments`, `argument_set.dfy`):
  - `ArgumentSet` is a class whose `values` map is pre-filled from the query context;
  - the map is edited by `setArgumentValue`/`removeArgumentValue` and checked by `isExecutable`, `getUnsetArguments`, `getUnsetUsage` and `writeToLine`;
  - it is resolved into field assignments by the decision part of `execute`.
- **Equinox bundle reader** (`EquinoxBundleReader`, `equinox_bundle_reader.dfy`):
  - the bundle-state table and the bundle-name format;
  - the memoising descriptor cache;
  - the service multimaps, without duplicates;
  - the enumeration of bundles and fragment hosts;
  - the linking of the extension registry.
- **Heap inspections** (`FindStrings`, `HashSetValues`): the "Find Strings" filter with its cancellation rule, and the hash-set value extraction that walks bucket chains along `next` links.
- **Small cores**:
  - the token table of the object query language lexer (`OQLParserConstants`);
  - the Eclipse and Jetty class-loader name resolvers (`EclipseNameResolver`, `JettyNameResolvers`);
  - the `CollectionExtractionInfo` constructors.

Shared modules:

- `Wrappers`: `Option` and `Result`. A Java `null` is `None` and a thrown exception is `Failure`.
- `Text`: `Long.toString`, `String.trim` and runs of one character.
- `Heap`: the abstract snapshot, a map from object id to a record holding the class name, the is-class/is-array/is-loader flags, the named fields, the array elements, the outbound references and the class-specific name.

Paths in the table below are relative to the root of the Memory Analyzer source tree. The tree contains several snapshots of it, named by build date.

## Model

| member | source | states |
|---|---|---|
| Histograms.Accumulate | N20080808/plugins/org.eclipse.mat.api/src/org/eclipse/mat/snapshot/Histogram.java:116-158 | the accumulation loops leave the table their reference fold describes: each class record is added (or, for the baseline, subtracted) under its loader and class label |
| Histograms.AccumulateClasses | N20080808/plugins/org.eclipse.mat.api/src/org/eclipse/mat/snapshot/Histogram.java:125-136 | the inner loop adds each class record of one loader into the table, creating a record with the next id for a new label |
| Histograms.AddRecord | N20080808/plugins/org.eclipse.mat.api/src/org/eclipse/mat/snapshot/Histogram.java:127-135 | one class record added into a loader's map: the record under its label is created with the next id and zero figures when missing, then both figures are increased |
| Histograms.MatchAnother | N20080808/plugins/org.eclipse.mat.api/src/org/eclipse/mat/snapshot/Histogram.java:243-263 | the second loop of the intersection leaves the table its reference fold describes |
| Histograms.MatchClassesOf | N20080808/plugins/org.eclipse.mat.api/src/org/eclipse/mat/snapshot/Histogram.java:252-262 | over one loader of the other histogram, each class whose tagged counterpart holds the same positive object count gets a fresh record under its plain label |
| Histograms.DiffTallyAt | N20080808/plugins/org.eclipse.mat.api/src/org/eclipse/mat/snapshot/Histogram.java:116-158 | every table entry of the difference holds the first histogram's sum minus the baseline's for its loader and class, with a missing side counting as zero; there is an entry exactly for each pair occurring in either |
| Histograms.IntersectTallyAt | N20080808/plugins/org.eclipse.mat.api/src/org/eclipse/mat/snapshot/Histogram.java:221-263 | an untagged table entry of the intersection exists exactly when a deciding record exists, and then holds its object count and the sum of both used heaps |
| Histograms.FoundExactly | N20080808/plugins/org.eclipse.mat.api/src/org/eclipse/mat/snapshot/Histogram.java:255-257 | a class survives under a loader exactly when the first histogram holds a positive number of its objects there and the other histogram has a record of it with exactly that number |
| Histograms.MergeLoader | N20080808/plugins/org.eclipse.mat.api/src/org/eclipse/mat/snapshot/Histogram.java:275-294 | the records of one loader are collected and summed; each is added into the merged class record of its name; the intersection also keeps the running subtotals (the difference runs the same loop without them at lines 168-182); fresh ids stay below the last one used |
| Histograms.TakeRecord | N20080808/plugins/org.eclipse.mat.api/src/org/eclipse/mat/snapshot/Histogram.java:279-292 | a kept record is appended to the loader's list, summed into the loader totals (and, for the intersection, the running overall sums) and added into the merged record of its label, created with the next id |
| Histograms.MergeTable | N20080808/plugins/org.eclipse.mat.api/src/org/eclipse/mat/snapshot/Histogram.java:269-300 | every table loader yields one loader record with consecutive decreasing ids; the intersection drops loaders without records; the class records total each class; the overall totals of the intersection add the running subtotals |
| Histograms.ValuesOf | N20080808/plugins/org.eclipse.mat.api/src/org/eclipse/mat/snapshot/Histogram.java:302 | the class records listed are exactly the merged ones, each once |
| Histograms.DiffLoadersHold | N20080808/plugins/org.eclipse.mat.api/src/org/eclipse/mat/snapshot/Histogram.java:108-185 | the loader records of the difference are one per loader label of either side, with ids below -2000000000, a record per class of either side holding this sum minus the baseline sum, and loader totals summing their records |
| Histograms.DiffClassesHold | N20080808/plugins/org.eclipse.mat.api/src/org/eclipse/mat/snapshot/Histogram.java:159-187 | the class records of the difference are one per class label of either side, totalling this histogram minus the baseline, with distinct ids below -1000000000 |
| Histograms.DiffClassOccurs | N20080808/plugins/org.eclipse.mat.api/src/org/eclipse/mat/snapshot/Histogram.java:116-185 | a class occurs in the difference's loader records exactly when it occurs in either input |
| Histograms.DiffWithBaseline | N20080808/plugins/org.eclipse.mat.api/src/org/eclipse/mat/snapshot/Histogram.java:108-192 | fails on null loader records; otherwise the label names both histograms, the loader and class records are the differences above, and the grand totals are the absolute differences of the two histograms' totals |
| Histograms.DiffWithItself | N20080808/plugins/org.eclipse.mat.api/src/org/eclipse/mat/snapshot/Histogram.java:116-191 | a histogram minus itself has zero objects and zero used heap in every class record and every loader record |
| Histograms.IntersectLoadersHold | N20080808/plugins/org.eclipse.mat.api/src/org/eclipse/mat/snapshot/Histogram.java:214-300 | the loader records of the intersection hold exactly the surviving classes with the shared count, both used heaps added and retained zero; loaders with nothing kept are omitted |
| Histograms.MergedClassesHold | N20080808/plugins/org.eclipse.mat.api/src/org/eclipse/mat/snapshot/Histogram.java:275-287 | the class records of a merge total each class over the loader records, with distinct ids below -1000000000 |
| Histograms.IntersectWithAnother | N20080808/plugins/org.eclipse.mat.api/src/org/eclipse/mat/snapshot/Histogram.java:214-304 | fails on null loader records; otherwise the label names both histograms, the records are the survivors above, retained is zero and the overall totals add each loader's running subtotal after each kept record |
| Histograms.IntersectSelfKeeps | N20080808/plugins/org.eclipse.mat.api/src/org/eclipse/mat/snapshot/Histogram.java:255-262 | intersecting a histogram with itself keeps every class with a positive object count, with that count and its used heap doubled |
| Histograms.IntersectSelfFrom | N20080808/plugins/org.eclipse.mat.api/src/org/eclipse/mat/snapshot/Histogram.java:255-262 | every record of a self-intersection comes from a class with a positive count, with the same count and twice its used heap |
| Histograms.OverallRepeatsSubtotals | N20080808/plugins/org.eclipse.mat.api/src/org/eclipse/mat/snapshot/Histogram.java:289-303 | as written, one loader keeping two one-object classes yields three objects overall, while its records hold two |
| Histograms.IntendedOverallIsClassSum | N20080808/plugins/org.eclipse.mat.api/src/org/eclipse/mat/snapshot/Histogram.java:289-303 | the intended overall totals, the sum of the loader records' totals, equal the sums over the class records |
| HistogramReports.AlignLeft | N20080808/plugins/org.eclipse.mat.api/src/org/eclipse/mat/snapshot/Histogram.java:373-384 | a text at least as long as the width comes back unchanged; otherwise the result is exactly the width, the text first and blanks after it |
| HistogramReports.AlignRight | N20080808/plugins/org.eclipse.mat.api/src/org/eclipse/mat/snapshot/Histogram.java:386-397 | a text at least as long as the width comes back unchanged; otherwise the result is exactly the width, blanks first and the text at its end |
| HistogramReports.AppendStringAndFillUp | N20080808/plugins/org.eclipse.mat.api/src/org/eclipse/mat/snapshot/Histogram.java:590-607 | appends the text (nothing for null) and then the fill character, max(text length, completeLength) characters in all |
| HistogramReports.AppendPreFillAndString | N20080808/plugins/org.eclipse.mat.api/src/org/eclipse/mat/snapshot/Histogram.java:609-626 | appends the fill character and then the text (nothing for null), max(text length, completeLength) characters in all |
| HistogramReports.SortBy | N20080808/plugins/org.eclipse.mat.api/src/org/eclipse/mat/snapshot/Histogram.java:419 | sorting keeps exactly the records it was given |
| HistogramReports.SortBySorted | N20080808/plugins/org.eclipse.mat.api/src/org/eclipse/mat/snapshot/Histogram.java:563 | under a consistent comparator the sorted records are in the comparator's order |
| HistogramReports.ByHeapDescendingOrders | N20080808/plugins/org.eclipse.mat.api/src/org/eclipse/mat/snapshot/Histogram.java:537-541 | the loader report lists a loader's classes, all of them, in descending used-heap order |
| HistogramReports.ClassCsvReport | N20080808/plugins/org.eclipse.mat.api/src/org/eclipse/mat/snapshot/Histogram.java:560-588 | fails on null class records (the wrapper at lines 491-497 copies them into a list); otherwise the header, then one semicolon-separated line per class record in the comparator's order |
| HistogramReports.AppendCsvRows | N20080808/plugins/org.eclipse.mat.api/src/org/eclipse/mat/snapshot/Histogram.java:573-586 | the record loop appends one line per record, in order |
| HistogramReports.LoaderCsvReport | N20080808/plugins/org.eclipse.mat.api/src/org/eclipse/mat/snapshot/Histogram.java:511-558 | fails on null loader records; otherwise the header, then per loader its classes in descending used-heap order, each line led by the loader label; the comparator argument plays no part |
| HistogramReports.AppendLoaderRows | N20080808/plugins/org.eclipse.mat.api/src/org/eclipse/mat/snapshot/Histogram.java:539-555 | the inner loop walks the sorted list from its end, one line per class |
| HistogramReports.NoSeparatorInNumber | N20080808/plugins/org.eclipse.mat.api/src/org/eclipse/mat/snapshot/Histogram.java:577-584 | no printed figure contains the field separator |
| HistogramReports.RetainedRoundTrip | N20080808/plugins/org.eclipse.mat.api/src/org/eclipse/mat/snapshot/Histogram.java:581-584 | a retained heap printed with ">=" for negative values reads back as the same value |
| HistogramReports.SplitCsvRow | N20080808/plugins/org.eclipse.mat.api/src/org/eclipse/mat/snapshot/Histogram.java:575-585 | a class line splits at its semicolons into the label, the three figures and the line break |
| HistogramReports.CsvRowRoundTrip | N20080808/plugins/org.eclipse.mat.api/src/org/eclipse/mat/snapshot/Histogram.java:575-585 | a class line reads back as the record's label, object count, used heap and retained heap when the label holds no semicolon |
| HistogramReports.LoaderCsvRowRoundTrip | N20080808/plugins/org.eclipse.mat.api/src/org/eclipse/mat/snapshot/Histogram.java:542-554 | a loader line reads back as the loader label and the class record's label and figures |
| HistogramReports.WidestFits | N20080808/plugins/org.eclipse.mat.api/src/org/eclipse/mat/snapshot/Histogram.java:420-442 | every header and every record's printed cells fit the computed column widths |
| HistogramReports.WidestIsLeast | N20080808/plugins/org.eclipse.mat.api/src/org/eclipse/mat/snapshot/Histogram.java:420-442 | each column width is that of its header or of some record's cell, so no column is wider than needed |
| HistogramReports.ColumnWidths | N20080808/plugins/org.eclipse.mat.api/src/org/eclipse/mat/snapshot/Histogram.java:420-442 | the width loop computes the widest of headers and printed record cells |
| HistogramReports.RecordLineReadBack | N20080808/plugins/org.eclipse.mat.api/src/org/eclipse/mat/snapshot/Histogram.java:461-472 | a record line has the rule's width; the label starts its first cell and each figure cell trims back to the record's number |
| HistogramReports.HeaderLineWidth | N20080808/plugins/org.eclipse.mat.api/src/org/eclipse/mat/snapshot/Histogram.java:449-457 | the heading line has the width of the rule |
| HistogramReports.ReportLength | N20080808/plugins/org.eclipse.mat.api/src/org/eclipse/mat/snapshot/Histogram.java:443-476 | a report whose cells fit is 4 + n lines, each as wide as the rule |
| HistogramReports.ReportLine | N20080808/plugins/org.eclipse.mat.api/src/org/eclipse/mat/snapshot/Histogram.java:443-476 | the line after the rule, the headings and the rule, plus i, is the line of the i-th sorted record |
| HistogramReports.AppendRow | N20080808/plugins/org.eclipse.mat.api/src/org/eclipse/mat/snapshot/Histogram.java:449-471 | appending a line cell by cell appends the table line of those cells |
| HistogramReports.AppendRecordLines | N20080808/plugins/org.eclipse.mat.api/src/org/eclipse/mat/snapshot/Histogram.java:461-472 | the record loop appends one table line per record, in order |
| HistogramReports.AppendHeading | N20080808/plugins/org.eclipse.mat.api/src/org/eclipse/mat/snapshot/Histogram.java:446-460 | appends the rule, the heading line and the rule |
| HistogramReports.ClassTextReport | N20080808/plugins/org.eclipse.mat.api/src/org/eclipse/mat/snapshot/Histogram.java:409-477 | fails on null class records; otherwise the boxed table of the records sorted by the comparator, with columns as wide as their widest entry |
| HistogramReports.FigureRowColumns | N20080808/plugins/org.eclipse.mat.api/src/org/eclipse/mat/snapshot/Histogram.java:359-370 | when the figures fit, each statistics line holds the three figures right-aligned in columns of 17, then the label at column 53 |
| HistogramReports.SectionColumns | N20080808/plugins/org.eclipse.mat.api/src/org/eclipse/mat/snapshot/Histogram.java:329-348 | each section heading line puts "Class Name" at column 53, where the labels of its lines begin |
| HistogramReports.AppendFigureRow | N20080808/plugins/org.eclipse.mat.api/src/org/eclipse/mat/snapshot/Histogram.java:361-369 | appends one statistics line for a record |
| HistogramReports.AppendRecords | N20080808/plugins/org.eclipse.mat.api/src/org/eclipse/mat/snapshot/Histogram.java:356-371 | appends one statistics line per record, in list order |
| HistogramReports.AppendSection | N20080808/plugins/org.eclipse.mat.api/src/org/eclipse/mat/snapshot/Histogram.java:329-348 | appends the title and the column headings of a section |
| HistogramReports.ToString | N20080808/plugins/org.eclipse.mat.api/src/org/eclipse/mat/snapshot/Histogram.java:311-354 | the summary line, then the class section and the class-loader section, each only when its list is not null |
| HistogramTables.ColumnValuesMatchColumns | N20080808/plugins/org.eclipse.mat.api/src/org/eclipse/mat/snapshot/Histogram.java:637-669 | the table fills exactly its three declared columns, each with a value of the declared kind: label, object count and shallow heap |
| HistogramTables.ClassContext | N20080808/plugins/org.eclipse.mat.api/src/org/eclipse/mat/snapshot/Histogram.java:671-695 | no context for a negative class id; otherwise the class itself, with the query of its objects only in a default histogram |
| HistogramTables.DiffClassesHaveNoContext | N20080808/plugins/org.eclipse.mat.api/src/org/eclipse/mat/snapshot/Histogram.java:675-676 | no class record of a difference has a context |
| HistogramTables.MergedClassesHaveNoContext | N20080808/plugins/org.eclipse.mat.api/src/org/eclipse/mat/snapshot/Histogram.java:675-676 | no class record of an intersection has a context |
| HistogramTables.Elements | N20080808/plugins/org.eclipse.mat.api/src/org/eclipse/mat/snapshot/Histogram.java:742-745 | the tree's elements are the loader records, or null when there are none |
| HistogramTables.Children | N20080808/plugins/org.eclipse.mat.api/src/org/eclipse/mat/snapshot/Histogram.java:747-755 | only loader rows have children, which are its class records in order |
| HistogramTables.ChildrenAreLeaves | N20080808/plugins/org.eclipse.mat.api/src/org/eclipse/mat/snapshot/Histogram.java:747-755 | the children of a loader row have no children of their own |
| HistogramTables.TreeColumnsAgree | N20080808/plugins/org.eclipse.mat.api/src/org/eclipse/mat/snapshot/Histogram.java:730-770 | the tree shows a class row as the table does and fills exactly its declared columns with values of the declared kinds |
| HistogramTables.TreeContext | N20080808/plugins/org.eclipse.mat.api/src/org/eclipse/mat/snapshot/Histogram.java:772-841 | a loader row has no context for a negative id, otherwise the loader with the query of its classes in a default histogram |
| HistogramTables.TreeClassContextIsTableContext | N20080808/plugins/org.eclipse.mat.api/src/org/eclipse/mat/snapshot/Histogram.java:809-835 | a class row has the same context in the tree as in the table |
| HistogramTables.DiffTreeHasNoContext | N20080808/plugins/org.eclipse.mat.api/src/org/eclipse/mat/snapshot/Histogram.java:778-813 | no loader row and no class row of a difference's tree has a context |
| QueryArguments.Lookup | N20080808/plugins/org.eclipse.mat.report/src/org/eclipse/mat/query/registry/ArgumentSet.java:186-189 | a missing key reads as null, and a non-null value is the one stored under the key |
| QueryArguments.ArgumentByName | N20080808/plugins/org.eclipse.mat.report/src/org/eclipse/mat/query/registry/ArgumentSet.java:172-179 | the argument found is the first of the query's arguments carrying that name; no argument is found only when none carries it |
| QueryArguments.PreFillContents | N20080808/plugins/org.eclipse.mat.report/src/org/eclipse/mat/query/registry/ArgumentSet.java:34-46 | the pre-filled map binds exactly the query's arguments the context can supply, each to what the context supplies |
| QueryArguments.UnsetContents | N20080808/plugins/org.eclipse.mat.report/src/org/eclipse/mat/query/registry/ArgumentSet.java:217-226 | the unset arguments are exactly the query's arguments without a key |
| QueryArguments.PendingContents | N20080808/plugins/org.eclipse.mat.report/src/org/eclipse/mat/query/registry/ArgumentSet.java:228-239 | the arguments listed for usage are exactly those neither supplied by the context nor bound |
| QueryArguments.LineShowsOnlyManualArguments | N20080808/plugins/org.eclipse.mat.report/src/org/eclipse/mat/query/registry/ArgumentSet.java:144-163 | the command line only depends on the arguments bound by hand: dropping the unbound and the context-supplied ones changes nothing |
| QueryArguments.LineWithoutManualArguments | N20080808/plugins/org.eclipse.mat.report/src/org/eclipse/mat/query/registry/ArgumentSet.java:144-163 | with no argument bound by hand the command line holds no usage at all |
| QueryArguments.LineStartsWithIdentifier | N20080808/plugins/org.eclipse.mat.report/src/org/eclipse/mat/query/registry/ArgumentSet.java:140-164 | the trimmed command line begins with the query identifier when that identifier starts and ends with a visible character |
| QueryArguments.ResolutionOutcome | N20080808/plugins/org.eclipse.mat.report/src/org/eclipse/mat/query/registry/ArgumentSet.java:54-64 | the value resolution succeeds exactly when every mandatory argument has a non-null value or a non-null default, and otherwise fails with the message for the first argument that does not |
| QueryArguments.ResolutionAssignments | N20080808/plugins/org.eclipse.mat.report/src/org/eclipse/mat/query/registry/ArgumentSet.java:54-97 | every field assignment belongs to an argument of the query, and a mandatory argument is never assigned null |
| QueryArguments.ExecutableWithoutNullsResolves | N20080808/plugins/org.eclipse.mat.report/src/org/eclipse/mat/query/registry/ArgumentSet.java:205-215 | an executable argument set without null values always resolves |
| QueryArguments.ExecutableButMissing | N20080808/plugins/org.eclipse.mat.report/src/org/eclipse/mat/query/registry/ArgumentSet.java:58-63 | a mandatory argument bound explicitly to null, without a default, passes `isExecutable` yet makes `execute` fail with "Missing required parameter" |
| QueryArguments.ResolutionStopsAtFailure | N20080808/plugins/org.eclipse.mat.report/src/org/eclipse/mat/query/registry/ArgumentSet.java:58-63 | the first missing mandatory argument aborts the whole resolution with its own message |
| QueryArguments.ArgumentSet.constructor | N20080808/plugins/org.eclipse.mat.report/src/org/eclipse/mat/query/registry/ArgumentSet.java:34-46 | the new set binds exactly the arguments the context can supply, to the context's values |
| QueryArguments.ArgumentSet.SetArgumentValue | N20080808/plugins/org.eclipse.mat.report/src/org/eclipse/mat/query/registry/ArgumentSet.java:167-170 | the argument is bound to the value (null included) and every other binding is unchanged |
| QueryArguments.ArgumentSet.SetArgumentValueByName | N20080808/plugins/org.eclipse.mat.report/src/org/eclipse/mat/query/registry/ArgumentSet.java:172-179 | an unknown name fails with the "has no argument named" message and changes nothing; a known one binds the argument of that name |
| QueryArguments.ArgumentSet.RemoveArgumentValue | N20080808/plugins/org.eclipse.mat.report/src/org/eclipse/mat/query/registry/ArgumentSet.java:181-184 | the argument loses its key, so it reads as null, and every other binding is unchanged |
| QueryArguments.ArgumentSet.IsExecutable | N20080808/plugins/org.eclipse.mat.report/src/org/eclipse/mat/query/registry/ArgumentSet.java:205-215 | true exactly when no mandatory argument lacks both a key and a default |
| QueryArguments.ArgumentSet.GetUnsetArguments | N20080808/plugins/org.eclipse.mat.report/src/org/eclipse/mat/query/registry/ArgumentSet.java:217-226 | the arguments without a key, in declaration order |
| QueryArguments.ArgumentSet.GetUnsetUsage | N20080808/plugins/org.eclipse.mat.report/src/org/eclipse/mat/query/registry/ArgumentSet.java:228-239 | the trimmed usages of the arguments that are neither context-supplied nor bound, in declaration order |
| QueryArguments.ArgumentSet.WriteToLine | N20080808/plugins/org.eclipse.mat.report/src/org/eclipse/mat/query/registry/ArgumentSet.java:140-165 | the trimmed identifier, a blank and the usages of the arguments bound by hand |
| QueryArguments.ArgumentSet.ResolveArguments | N20080808/plugins/org.eclipse.mat.report/src/org/eclipse/mat/query/registry/ArgumentSet.java:48-112 | the field assignments `execute` makes, in declaration order, or the error of the first mandatory argument left without a value |
| EquinoxBundleReader.AddUnique | plugins/org.eclipse.mat.api/src/org/eclipse/mat/inspections/osgi/model/EquinoxBundleReader.java:353-367 | the service ends up in the list under its key; an absent key gets a singleton list; a present service is not added again, so lists stay duplicate-free; other keys are untouched |
| EquinoxBundleReader.StateLabels | plugins/org.eclipse.mat.api/src/org/eclipse/mat/inspections/osgi/model/EquinoxBundleReader.java:53-60 | codes 1, 2, 4, 8, 16 and 32 read as uninstalled, installed, resolved, starting, stopping and active |
| EquinoxBundleReader.LabelInMissing | plugins/org.eclipse.mat.api/src/org/eclipse/mat/inspections/osgi/model/EquinoxBundleReader.java:499-505 | a code that no state in the table carries reads as "N/A" |
| EquinoxBundleReader.StateLabelOther | plugins/org.eclipse.mat.api/src/org/eclipse/mat/inspections/osgi/model/EquinoxBundleReader.java:490-506 | every code other than the six state values reads as "N/A" |
| EquinoxBundleReader.EmptyVersionShown | plugins/org.eclipse.mat.api/src/org/eclipse/mat/inspections/osgi/model/EquinoxBundleReader.java:405 | as written, an empty version read from the heap still yields "name ()", while the intended name is the symbolic name alone |
| EquinoxBundleReader.AsWrittenDiffersOnlyOnEmptyVersion | plugins/org.eclipse.mat.api/src/org/eclipse/mat/inspections/osgi/model/EquinoxBundleReader.java:405 | the name as written and the intended name agree for every symbolic name and version except an empty version |
| EquinoxBundleReader.BundleNameShowsVersion | plugins/org.eclipse.mat.api/src/org/eclipse/mat/inspections/osgi/model/EquinoxBundleReader.java:394-407 | the intended name is the symbolic name itself (null included) unless the version is non-null and non-empty; then it starts with the symbolic name, printed as "null" when absent, and ends with the version between " (" and ")" |
| EquinoxBundleReader.BuildDescriptor | plugins/org.eclipse.mat.api/src/org/eclipse/mat/inspections/osgi/model/EquinoxBundleReader.java:384-387 | building fails exactly when `bundledata` or its `symbolicName` is null or the state cannot be read; a built descriptor carries the host object, the bundle id, the requested type, the name `extractBundleName` gives as written and the state label |
| EquinoxBundleReader.CacheMemoises | plugins/org.eclipse.mat.api/src/org/eclipse/mat/inspections/osgi/model/EquinoxBundleReader.java:369-392 | a lookup keeps every cached descriptor, keeps the cache keyed by bundle id, and asking again returns the same descriptor and leaves the cache unchanged |
| EquinoxBundleReader.BundlesWithoutIdShareDescriptor | plugins/org.eclipse.mat.api/src/org/eclipse/mat/inspections/osgi/model/EquinoxBundleReader.java:372-382 | two bundles without an id share one cache entry: the second receives the descriptor built for the first |
| EquinoxBundleReader.NonZero | plugins/org.eclipse.mat.api/src/org/eclipse/mat/inspections/osgi/model/EquinoxBundleReader.java:117-121 | the kept addresses are exactly the non-zero entries of the array |
| EquinoxBundleReader.BundleAddressesMissing | plugins/org.eclipse.mat.api/src/org/eclipse/mat/inspections/osgi/model/EquinoxBundleReader.java:110-114 | one repository without an install-order array makes the whole enumeration null |
| EquinoxBundleReader.LinkConfigurationElements | plugins/org.eclipse.mat.api/src/org/eclipse/mat/inspections/osgi/model/EquinoxBundleReader.java:612-628 | an element is attached to the extension whose id is its parent id, failing that to the element with that id, and otherwise dropped; nothing else is attached and no element is attached twice |
| EquinoxBundleReader.LinkExtensions | plugins/org.eclipse.mat.api/src/org/eclipse/mat/inspections/osgi/model/EquinoxBundleReader.java:630-640 | each extension is attached to the extension point of its name when there is one, and to nothing else; no extension is attached twice |
| EquinoxBundleReader.GroupByBundle | plugins/org.eclipse.mat.api/src/org/eclipse/mat/inspections/osgi/model/EquinoxBundleReader.java:642-677 | every item ends up under its contributing bundle, earlier lists are only extended, nothing foreign is listed, and lists stay duplicate-free |
| EquinoxBundleReader.RegisteredContents | plugins/org.eclipse.mat.api/src/org/eclipse/mat/inspections/osgi/model/EquinoxBundleReader.java:334-340 | after the update every service is listed under the bundle that registered it, earlier lists are only extended and lists stay duplicate-free |
| EquinoxBundleReader.RegisteredOnly | plugins/org.eclipse.mat.api/src/org/eclipse/mat/inspections/osgi/model/EquinoxBundleReader.java:334-340 | a registered-services list holds only what it held before or services registered by that bundle |
| EquinoxBundleReader.UsedByContents | plugins/org.eclipse.mat.api/src/org/eclipse/mat/inspections/osgi/model/EquinoxBundleReader.java:342-348 | a service is listed under each bundle that uses it, and under no other bundle it was not listed under before |
| EquinoxBundleReader.UsedContents | plugins/org.eclipse.mat.api/src/org/eclipse/mat/inspections/osgi/model/EquinoxBundleReader.java:334-351 | after the update every service is listed under every bundle using it, earlier lists are only extended and lists stay duplicate-free |
| EquinoxBundleReader.BundleReader.constructor | plugins/org.eclipse.mat.api/src/org/eclipse/mat/inspections/osgi/model/EquinoxBundleReader.java:48-51 | the reader starts with an empty descriptor cache and empty service, extension and extension-point maps |
| EquinoxBundleReader.BundleReader.DoUpdate | plugins/org.eclipse.mat.api/src/org/eclipse/mat/inspections/osgi/model/EquinoxBundleReader.java:353-367 | the chosen service map becomes the map with the service added without duplicates; every other map is unchanged |
| EquinoxBundleReader.BundleReader.UpdateServiceMap | plugins/org.eclipse.mat.api/src/org/eclipse/mat/inspections/osgi/model/EquinoxBundleReader.java:334-351 | the registered and used maps become the reference maps of the service list, with every other map unchanged |
| EquinoxBundleReader.BundleReader.GetBundleDescriptor | plugins/org.eclipse.mat.api/src/org/eclipse/mat/inspections/osgi/model/EquinoxBundleReader.java:369-392 | the result is the cached descriptor for the bundle id or a newly built one (with the as-written name and the state), which is then cached under that id; a bundle whose id reads and whose descriptor builds is always found; other entries and maps are unchanged |
| EquinoxBundleReader.BundleReader.GetFragmentHost | plugins/org.eclipse.mat.api/src/org/eclipse/mat/inspections/osgi/model/EquinoxBundleReader.java:462-488 | no host when the hosts array is null, not an array or empty; otherwise the result is the cached descriptor of the last host in the array; every descriptor the call adds was built for an object with that id and typed as a plain bundle; the call succeeds whenever every host address leads to a loader whose bundle can be described |
| EquinoxBundleReader.BundleReader.GetDependencies | plugins/org.eclipse.mat.api/src/org/eclipse/mat/inspections/osgi/model/EquinoxBundleReader.java:508-537 | null exactly when the description array is null; otherwise the k-th result is the descriptor cached under the id of the k-th non-null `userObject.bundle`, and every descriptor the call adds was built for an object with that id, typed as a fragment by its class name; the call succeeds whenever the description object is an array of known addresses whose bundles can all be described |
| EquinoxBundleReader.BundleReader.GetBundleDescriptors | plugins/org.eclipse.mat.api/src/org/eclipse/mat/inspections/osgi/model/EquinoxBundleReader.java:93-138 | an empty list without a repository class; null exactly when some repository lacks an install-order array; otherwise the k-th result is the descriptor cached under the id of the object at the k-th non-zero address of all install-order arrays, and every descriptor the call adds was built for an object with that id, typed as a fragment by its class name; cancellation fails only when there are more repositories than checks before the flag rises; the call succeeds whenever it is not canceled and every repository is known and has, if any, an install-order array of known addresses whose bundles can all be described |
| EquinoxBundleReader.BundleReader.DescriptorsOf | plugins/org.eclipse.mat.api/src/org/eclipse/mat/inspections/osgi/model/EquinoxBundleReader.java:114-131 | the k-th result is the descriptor cached under the id of the object at the k-th non-zero address; every descriptor the call adds was built for an object with that id, typed as a fragment by its class name; the call succeeds whenever every non-zero address is known and its bundle can be described, and never fails as canceled; descriptors already cached and the other registries are left as they were |
| EquinoxBundleReader.BundleReader.FillExtensionsByBundle | plugins/org.eclipse.mat.api/src/org/eclipse/mat/inspections/osgi/model/EquinoxBundleReader.java:642-660 | every extension is listed under its contributing bundle, nothing else is added and earlier lists are only extended |
| EquinoxBundleReader.BundleReader.FillExtensionPointsByBundle | plugins/org.eclipse.mat.api/src/org/eclipse/mat/inspections/osgi/model/EquinoxBundleReader.java:661-677 | every extension point is listed under its contributing bundle, nothing else is added and earlier lists are only extended |
| EquinoxBundleReader.BundleReader.ExtensionPointList | plugins/org.eclipse.mat.api/src/org/eclipse/mat/inspections/osgi/model/EquinoxBundleReader.java:678-690 | the returned list holds exactly the extension points listed under some bundle, each once |
| HashSetValues.SelectInfo | plugins/org.eclipse.mat.api/src/org/eclipse/mat/inspections/collections/HashSetValuesQuery.java:60-80 | the custom-collection error comes exactly when the set extends the named custom class and an attribute name is missing; with both names given the custom layout uses them; otherwise a `java.util.HashSet` takes the JDK layout, a null one failing as a broken reference, and any other object fails with "Not a hash set: " and its display name |
| HashSetValues.LastIndexOf | plugins/org.eclipse.mat.api/src/org/eclipse/mat/inspections/collections/HashSetValuesQuery.java:86 | `lastIndexOf`: -1 or a position holding the character, with no later occurrence |
| HashSetValues.SplitDotsRoundTrip | plugins/org.eclipse.mat.api/src/org/eclipse/mat/inspections/collections/HashSetValuesQuery.java:86-87 | cutting the table path at its dots loses nothing, and no segment holds a dot |
| HashSetValues.TableFieldResolvesPath | plugins/org.eclipse.mat.api/src/org/eclipse/mat/inspections/collections/HashSetValuesQuery.java:85-88 | reading the part before the last dot and then the field after it is the same as resolving the whole dotted path from the set |
| HashSetValues.TableId | plugins/org.eclipse.mat.api/src/org/eclipse/mat/inspections/collections/HashSetValuesQuery.java:88-90 | the table id found is an object of the heap |
| HashSetValues.Walk | plugins/org.eclipse.mat.api/src/org/eclipse/mat/inspections/collections/HashSetValuesQuery.java:102-127 | the chain walk collects at most one key per entry it visits |
| HashSetValues.WalkKeysAreEntryKeys | plugins/org.eclipse.mat.api/src/org/eclipse/mat/inspections/collections/HashSetValuesQuery.java:113-122 | every collected key is the key field of some entry object of the heap |
| HashSetValues.WalkFuelMonotone | plugins/org.eclipse.mat.api/src/org/eclipse/mat/inspections/collections/HashSetValuesQuery.java:106-126 | once a walk has finished, a larger visit bound gives the same keys and the same end |
| HashSetValues.CollectAllPrefix | plugins/org.eclipse.mat.api/src/org/eclipse/mat/inspections/collections/HashSetValuesQuery.java:92-94 | the keys of a prefix of the outbound references are a prefix of all keys, and a broken walk ends the collection |
| HashSetValues.CancellationRaises | plugins/org.eclipse.mat.api/src/org/eclipse/mat/inspections/collections/HashSetValuesQuery.java:96-97 | a canceled query always raises; a successful one is uncanceled, not on a PHD dump, and returns the keys of all chains of the table in order |
| HashSetValues.CollectEntry | plugins/org.eclipse.mat.api/src/org/eclipse/mat/inspections/collections/HashSetValuesQuery.java:102-127 | `collectEntry` appends the keys of the chain from the entry in order, stopping at a class id, at a null `next`, or just after the key at which the cancel flag is raised |
| HashSetValues.CollectAllEntries | plugins/org.eclipse.mat.api/src/org/eclipse/mat/inspections/collections/HashSetValuesQuery.java:92-97 | the loop over the table's outbound references gives the keys of all chains in order, or the first failure, or the cancellation |
| HashSetValues.Execute | plugins/org.eclipse.mat.api/src/org/eclipse/mat/inspections/collections/HashSetValuesQuery.java:56-100 | `execute` returns exactly the specified outcome: the format check, the choice of layout and its errors, the table lookup, then the chain keys |
| FindStrings.SelectedIsFilter | N20080530/plugins/org.eclipse.mat.api/src/org/eclipse/mat/inspections/query/FindStringsQuery.java:54-94 | the scan is a pure filter: what it finds lists scanned ids in scan order, and an id is found exactly when it is examined and its text matches; it fails only on an examined id without text |
| FindStrings.RosterExaminesAll | N20080530/plugins/org.eclipse.mat.api/src/org/eclipse/mat/inspections/query/FindStringsQuery.java:52-66 | without an object set every instance of the String classes is examined |
| FindStrings.Visited | N20080530/plugins/org.eclipse.mat.api/src/org/eclipse/mat/inspections/query/FindStringsQuery.java:77-78 | the scan visits at most every id, and all of them when it is never canceled |
| FindStrings.CancellationOutcome | N20080530/plugins/org.eclipse.mat.api/src/org/eclipse/mat/inspections/query/FindStringsQuery.java:96-100 | the query raises the cancellation only when canceled; a result is labelled "Strings matching " and the pattern, lists scanned ids in scan order, and is not empty when the search was canceled |
| FindStrings.ScanGroup | N20080530/plugins/org.eclipse.mat.api/src/org/eclipse/mat/inspections/query/FindStringsQuery.java:75-92 | the inner loop over one group of ids extends the selection of the scanned prefix, and stops on the cancel flag or on an id without text |
| FindStrings.ScanGroups | N20080530/plugins/org.eclipse.mat.api/src/org/eclipse/mat/inspections/query/FindStringsQuery.java:73-93 | the outer loop over the groups ends with the selection of exactly the ids visited before cancellation, or with the failure on an id without text among them |
| FindStrings.Execute | N20080530/plugins/org.eclipse.mat.api/src/org/eclipse/mat/inspections/query/FindStringsQuery.java:46-101 | the query returns exactly the specified outcome: a missing String class with an object set fails, otherwise the filtered prefix up to cancellation, labelled, or the cancellation when nothing was found |
| FindStrings.ScanStopsAtFailure | N20080530/plugins/org.eclipse.mat.api/src/org/eclipse/mat/inspections/query/FindStringsQuery.java:87 | a failure on a scanned prefix is the failure of any longer scan |
| OQLParserConstants.ImageOf | N20081113/plugins/org.eclipse.mat.parser/src/org/eclipse/mat/parser/internal/oql/parser/OQLParserConstants.java:81-89 | a token kind has an image exactly when it indexes the 54-entry table |
| OQLParserConstants.NamedKindsDistinct | N20081113/plugins/org.eclipse.mat.parser/src/org/eclipse/mat/parser/internal/oql/parser/OQLParserConstants.java:11-70 | the named token kinds are pairwise distinct and lie between EOF (0) and NE (38) |
| OQLParserConstants.NamedKindsHaveImages | N20081113/plugins/org.eclipse.mat.parser/src/org/eclipse/mat/parser/internal/oql/parser/OQLParserConstants.java:11-89 | the image table has 54 entries and every named kind has an image |
| OQLParserConstants.KeywordImages | N20081113/plugins/org.eclipse.mat.parser/src/org/eclipse/mat/parser/internal/oql/parser/OQLParserConstants.java:37-50 | the keywords' images are their exact spellings, "INSTANCEOF" in capitals and the others in lower case |
| OQLParserConstants.OperatorImages | N20081113/plugins/org.eclipse.mat.parser/src/org/eclipse/mat/parser/internal/oql/parser/OQLParserConstants.java:59-70 | the comparison operators and the negation print as their exact spellings |
| OQLParserConstants.GreaterIsAnonymous | N20081113/plugins/org.eclipse.mat.parser/src/org/eclipse/mat/parser/internal/oql/parser/OQLParserConstants.java:89 | ">" is kind 50, which no named constant carries |
| OQLParserConstants.LexicalStatesDistinct | N20081113/plugins/org.eclipse.mat.parser/src/org/eclipse/mat/parser/internal/oql/parser/OQLParserConstants.java:72-79 | the four lexical states are numbered 0 to 3 in order |
| OQLParserConstants.CommentImages | N20081113/plugins/org.eclipse.mat.parser/src/org/eclipse/mat/parser/internal/oql/parser/OQLParserConstants.java:83 | the single-line comment prints by name; the formal and the multi-line comment both print as their closing "*/" |
| EclipseNameResolver.ResolveStartupClassLoader | plugins/org.eclipse.mat.api/src/org/eclipse/mat/inspections/eclipse/EclipseNameResolver.java:45-54 | the startup class loader is always named "Equinox Startup Class Loader", whatever the object |
| EclipseNameResolver.ZeroPad | plugins/org.eclipse.mat.api/src/org/eclipse/mat/inspections/eclipse/EclipseNameResolver.java:68 | the padded digit string is as long as the width, or as the digits when they are longer |
| EclipseNameResolver.Format03 | plugins/org.eclipse.mat.api/src/org/eclipse/mat/inspections/eclipse/EclipseNameResolver.java:68 | `%03d` prints at least three characters: digits only for a non-negative value, a minus sign then digits for a negative one |
| EclipseNameResolver.ZeroPadValue | plugins/org.eclipse.mat.api/src/org/eclipse/mat/inspections/eclipse/EclipseNameResolver.java:68 | the zeros `%03d` inserts do not change the value the digits denote |
| EclipseNameResolver.Format03Value | plugins/org.eclipse.mat.api/src/org/eclipse/mat/inspections/eclipse/EclipseNameResolver.java:68 | a value from 0 to 999 prints as exactly three digits that read back as the value |
| EclipseNameResolver.RGBLayout | plugins/org.eclipse.mat.api/src/org/eclipse/mat/inspections/eclipse/EclipseNameResolver.java:56-70 | with all three components from 0 to 999 the label is 13 characters "(rrr,bbb,ggg)", whose three digit groups read back as red, blue and green in that order |
| EclipseNameResolver.RGBMissingComponent | plugins/org.eclipse.mat.api/src/org/eclipse/mat/inspections/eclipse/EclipseNameResolver.java:61-66 | a missing red, blue or green component gives no name |
| EclipseNameResolver.EclipseClassLoaderByFields | plugins/org.eclipse.mat.api/src/org/eclipse/mat/inspections/eclipse/EclipseNameResolver.java:21-29 | an EclipseClassLoader is named by the object at `hostdata.symbolicName` |
| EclipseNameResolver.EclipseClassLoaderWithoutHostdata | plugins/org.eclipse.mat.api/src/org/eclipse/mat/inspections/eclipse/EclipseNameResolver.java:27-28 | without a `hostdata` object the EclipseClassLoader has no name |
| EclipseNameResolver.DefaultClassLoaderByFields | plugins/org.eclipse.mat.api/src/org/eclipse/mat/inspections/eclipse/EclipseNameResolver.java:33-41 | a DefaultClassLoader is named by the object at `manager.data.symbolicName` |
| EclipseNameResolver.DefaultClassLoaderWithoutManager | plugins/org.eclipse.mat.api/src/org/eclipse/mat/inspections/eclipse/EclipseNameResolver.java:39-40 | without a `manager` object the DefaultClassLoader has no name |
| JettyNameResolvers.WebAppNameFirst | N20090120/plugins/org.eclipse.mat.api/src/org/eclipse/mat/inspections/jetty/JettyNameResolvers.java:21-28 | when `_name` refers to an object, the web-application loader takes that object's name, even a missing one, and the context path is not consulted |
| JettyNameResolvers.WebAppContextPathFallback | N20090120/plugins/org.eclipse.mat.api/src/org/eclipse/mat/inspections/jetty/JettyNameResolvers.java:30-31 | without a `_name` object the loader is named after `_context._contextPath` |
| JettyNameResolvers.WebAppNoName | N20090120/plugins/org.eclipse.mat.api/src/org/eclipse/mat/inspections/jetty/JettyNameResolvers.java:26-31 | when neither field resolves the loader has no name |
| JettyNameResolvers.JasperLabel | N20090120/plugins/org.eclipse.mat.api/src/org/eclipse/mat/inspections/jetty/JettyNameResolvers.java:35-41 | a Jasper loader with a parent is labelled "JSPs of " followed by the parent's name, or by "null" when the parent has none |
| JettyNameResolvers.JasperWithoutParent | N20090120/plugins/org.eclipse.mat.api/src/org/eclipse/mat/inspections/jetty/JettyNameResolvers.java:40-41 | a Jasper loader without a parent has no name |
| CollectionExtractionInfo.New | plugins/org.eclipse.mat.api/src/org/eclipse/mat/snapshot/extension/CollectionExtractionInfo.java:36-47 | a null class name, version set or extractor raises IllegalArgumentException; otherwise the record holds exactly the three arguments |
| CollectionExtractionInfo.NewForAllVersions | plugins/org.eclipse.mat.api/src/org/eclipse/mat/snapshot/extension/CollectionExtractionInfo.java:26-29 | the two-argument constructor succeeds exactly when the class name and extractor are given, and then registers them for every JDK version |
| CollectionExtractionInfo.NewForVersion | plugins/org.eclipse.mat.api/src/org/eclipse/mat/snapshot/extension/CollectionExtractionInfo.java:31-34 | a single version becomes a one-element set; a null version fails inside `JdkVersion.of` |
| CollectionExtractionInfo.ToStringLayout | plugins/org.eclipse.mat.api/src/org/eclipse/mat/snapshot/extension/CollectionExtractionInfo.java:50-52 | the debugging text holds the prefix, then the class name exactly, then " on versions:", then the version list between brackets |
| CollectionExtractionInfo.AllVersionsIsGeneralForm | plugins/org.eclipse.mat.api/src/org/eclipse/mat/snapshot/extension/CollectionExtractionInfo.java:26-47 | the two-argument form gives the same record as the general form applied to the set of all versions |

## Left out

- **Snapshot access.** `ISnapshot`, `IObject.resolveValue`, `getField`, `mapAddressToId`, `doesExtend` and `getClassSpecificName` are lookups in the abstract `Heap` map; their implementation is not part of this model. `Heap.ResolveObject` and `Heap.ResolveInt` return `None` for every path that does not end at an object (or at an integer). The source's `resolveValue` may instead throw a `SnapshotException`, for instance for an object it cannot read, and a missing field, a null and a value of the wrong kind fail differently there. The model treats all of these like a null reference at that point.
- **Locale formatting.** `NumberFormat` in `Histogram.toString` is the `format` parameter of `HistogramReports.ToString`.
- **Comparators.** They are parameters.
  - `Collections.sort` is a stable insertion sort (`HistogramReports.SortBy`).
  - `HistogramRecord.COMPARATOR_FOR_USEDHEAPSIZE` is taken to order by ascending used heap, since `HistogramRecord.java` is not part of this model.
  - The sort's stability is not proved.
  - The order of classes with equal used heap in the class-loader CSV report is not stated.
- **Hash-map iteration order.** In the difference, the intersection, the bundle reader and the registry linking it is left open: the model picks an arbitrary remaining key. Properties are therefore stated per label and per key, not per position.
- **Java integer widths.** The `int` object counts and loader subtotals of the histogram operations are unbounded integers, so overflow is not modelled.
- Histograms.IntersectWithAnother: states the contents of the loader records only when no class label of the other histogram starts with the tag `Class$%`. Such a label would collide with the tagged labels of the first histogram, and the model does not describe what the source then produces. The method keeps the overall totals as the source computes them (see Findings); `Histograms.IntendedOverall` is only the corrected reference.
- Histograms.IntersectSelfKeeps: assumes at most one record per loader label and class label.
- Histograms.IntersectSelfFrom: assumes at most one record per loader label and class label.
- HistogramReports.FigureRowColumns: states the columns of a statistics line only when every formatted figure fits in 17 characters. Wider figures push the label right, as in the source.
- **Contexts.**
  - The context's `getObjectIds` is left out: it reads the class's objects from the snapshot.
  - `OQL.java` is not part of this model, so the two queries a context offers are the `HistogramTables.Query` datatype.
  - `getIcon`, `getResultMetaData`, `getRowCount` and `getRow` are left out: they are presentation or plain list access.
- **ArgumentSet execution.** The reflective part of `execute` is left out: `Field.set`, array conversion, `newInstance`, `impl.execute`, and the `toString` and `getQueryContext` helpers. `QueryArguments.ArgumentSet.ResolveArguments` returns the assignments `execute` would make.
- **Argument usage text.** `ArgumentDescriptor.appendUsage` and the usage of a value are function parameters, since those classes are not part of this model.
- **EquinoxBundleReader.**
  - Left out: `readOSGiModel`, `getBundleFragments`, `getBundle`/`load`, `collectServiceInfo` with `getServiceProperties`, and the `extract*Info`/`getExtensionProperties` readers.
    - They copy heap fields into model objects through the snapshot.
    - `EquinoxBundleReader.LinkConfigurationElements`, `LinkExtensions` and the byBundle loops take the records those readers produce as maps.
- EquinoxBundleReader.BundleReader.DescriptorsOf: a descriptor the call adds is stated to be built for an object with its bundle id, typed by that object's class, not necessarily for the object at the position that first asked for it. Objects without an id share one cache entry, so a later object can receive a descriptor built for an earlier one.
- EquinoxBundleReader.BundleReader.GetBundleDescriptors: states the descriptors it adds as `DescriptorsOf` does, for the same reason.
- EquinoxBundleReader.BundleReader.GetDependencies: states the descriptors it adds as `DescriptorsOf` does, for the same reason.
- **Cancellation.** A progress listener is an `Option<nat>` oracle that says after how many checks the cancel flag is raised. Concurrency is not modelled.
- **Regular expressions.** The pattern match of `FindStringsQuery` is the `matches` predicate parameter.
- HashSetValues.Walk: a chain walk visits at most as many entries as the heap has objects. A cyclic chain, which the source would follow forever, ends as `Looping`.
- **Logging.** `MATPlugin.log` is left out: logging has no effect on the results.

## Findings

| source | as written | input that shows it | evidently intended | confidence | as-written member | corrected member |
|---|---|---|---|---|---|---|
| plugins/org.eclipse.mat.api/src/org/eclipse/mat/inspections/osgi/model/EquinoxBundleReader.java:405 | the empty-version test compares references with the literal `""`, which a version read from the heap never is | a bundle whose version qualifier is an empty string is named "org.eclipse.core.runtime ()" (the reader keeps this behaviour) | the symbolic name alone when the version is null or empty | medium, not executed | EquinoxBundleReader.EmptyVersionShown | EquinoxBundleReader.BundleNameShowsVersion |
| N20080808/plugins/org.eclipse.mat.api/src/org/eclipse/mat/snapshot/Histogram.java:289-292,303 | after every kept record the overall totals add the loader's running subtotal, not the record | one loader keeping classes A and B with one object each gives 3 objects overall, while the records hold 2 | the overall totals are the sums over the kept records | medium, not executed | Histograms.OverallRepeatsSubtotals | Histograms.IntendedOverallIsClassSum |
