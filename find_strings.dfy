/** The "Find Strings" query: the ids of the `java.lang.String` instances
    whose text fully matches a regular expression, searched either among all
    instances of the String classes or within a given object set. */
module FindStrings {
  import opened Wrappers
  import opened Heap

  /** A class named `java.lang.String` and the ids of its instances, as
      `getClassesByName` and `getObjectIds` list them. */
  datatype StringClass = StringClass(classId: int, objectIds: seq<int>)

  /** How the query can end without a result. */
  datatype Error = OperationCanceled | NoSuchElement | NullPointer

  /** The result list and its label. */
  datatype ObjectList = ObjectList(caption: string, ids: seq<int>)

  function Label(pattern: string): string {
    "Strings matching " + pattern
  }

  /** The id groups of the scan, in order: the instances of every String
      class, or the arrays of the object set. */
  function Groups(roster: seq<StringClass>, objects: Option<seq<seq<int>>>): seq<seq<int>>
  {
    match objects
    case None => seq(|roster|, i requires 0 <= i < |roster| => roster[i].objectIds)
    case Some(groups) => groups
  }

  function Flatten(groups: seq<seq<int>>): seq<int>
  {
    if groups == [] then [] else Flatten(groups[..|groups| - 1]) + groups[|groups| - 1]
  }

  lemma {:induction false} FlattenAppend(a: seq<seq<int>>, b: seq<seq<int>>)
    ensures Flatten(a + b) == Flatten(a) + Flatten(b)
    decreases |b|
  {
    if b == [] {
      assert a + b == a;
    } else {
      var b' := b[..|b| - 1];
      assert (a + b)[..|a + b| - 1] == a + b';
      FlattenAppend(a, b');
    }
  }

  /** The text of the String an id denotes. */
  function Text(snap: Snapshot, id: int): Option<string>
    requires id in snap.objects
  {
    snap.objects[id].specificName
  }

  /** Whether an id is examined at all: always without an object set;
      within one, only instances (not arrays, classes or class loaders)
      of the String class `stringClass`. */
  predicate Examined(snap: Snapshot, id: int, stringClass: Option<int>)
    requires id in snap.objects
  {
    var o := snap.objects[id];
    match stringClass
    case None => true
    case Some(c) => !o.isArray && !o.isClass && !o.isClassLoader && o.classId == c
  }

  /** The ids of `ids` that are examined and whose text matches, in scan
      order; a `NullPointer` failure at the first examined id without text. */
  function Selected(snap: Snapshot, ids: seq<int>, stringClass: Option<int>, matches: string -> bool)
    : Result<seq<int>, Error>
    requires forall x :: x in ids ==> x in snap.objects
  {
    if ids == [] then Success([])
    else
      match Selected(snap, ids[..|ids| - 1], stringClass, matches)
      case Failure(e) => Failure(e)
      case Success(found) =>
        var id := ids[|ids| - 1];
        if !Examined(snap, id, stringClass) then Success(found)
        else match Text(snap, id)
          case None => Failure(NullPointer)
          case Some(t) => if matches(t) then Success(found + [id]) else Success(found)
  }

  /** `r` lists some of the elements of `s`, in the order of `s`. */
  predicate IsSubsequence(r: seq<int>, s: seq<int>)
  {
    if r == [] then true
    else if s == [] then false
    else if r[|r| - 1] == s[|s| - 1] then IsSubsequence(r[..|r| - 1], s[..|s| - 1])
    else IsSubsequence(r, s[..|s| - 1])
  }

  lemma SubsequenceExtend(r: seq<int>, s: seq<int>, x: int)
    requires IsSubsequence(r, s)
    ensures IsSubsequence(r + [x], s + [x])
  {
    assert (s + [x])[..|s|] == s;
    assert (r + [x])[..|r|] == r;
  }

  lemma {:induction false} SubsequenceDrop(r: seq<int>, s: seq<int>)
    requires r != [] && IsSubsequence(r, s)
    ensures IsSubsequence(r[..|r| - 1], s)
    decreases |s|, 0
  {
    var r' := r[..|r| - 1];
    var s' := s[..|s| - 1];
    if r[|r| - 1] == s[|s| - 1] {
      SubsequenceWeaken(r', s', s[|s| - 1]);
    } else {
      SubsequenceDrop(r, s');
      SubsequenceWeaken(r', s', s[|s| - 1]);
    }
    assert s' + [s[|s| - 1]] == s;
  }

  lemma {:induction false} SubsequenceWeaken(r: seq<int>, s: seq<int>, x: int)
    requires IsSubsequence(r, s)
    ensures IsSubsequence(r, s + [x])
    decreases |s|, 1
  {
    assert (s + [x])[..|s|] == s;
    if r != [] && r[|r| - 1] == x {
      SubsequenceDrop(r, s);
    }
  }

  /** An id the scan keeps: examined, with a text that matches. */
  predicate Matching(snap: Snapshot, x: int, stringClass: Option<int>, matches: string -> bool)
    requires x in snap.objects
  {
    Examined(snap, x, stringClass) && Text(snap, x).Some? && matches(Text(snap, x).value)
  }

  /** An id the scan fails on: examined, without text. */
  predicate Missing(snap: Snapshot, x: int, stringClass: Option<int>)
    requires x in snap.objects
  {
    Examined(snap, x, stringClass) && Text(snap, x).None?
  }

  /** The search is a pure filter: what it finds is a subsequence of the
      scanned ids, and an id is found iff it is examined and its text
      matches.  It fails only on an examined id without text. */
  lemma {:induction false} SelectedIsFilter(snap: Snapshot, ids: seq<int>, stringClass: Option<int>,
                                            matches: string -> bool)
    requires forall x :: x in ids ==> x in snap.objects
    ensures match Selected(snap, ids, stringClass, matches)
            case Success(found) =>
              IsSubsequence(found, ids) &&
              (forall x :: x in found <==> x in ids && Matching(snap, x, stringClass, matches))
            case Failure(e) =>
              e == NullPointer && exists x :: x in ids && Missing(snap, x, stringClass)
  {
    if ids != [] {
      var init, id := ids[..|ids| - 1], ids[|ids| - 1];
      SelectedIsFilter(snap, init, stringClass, matches);
      assert ids == init + [id];
      match Selected(snap, init, stringClass, matches)
      case Failure(e) =>
        assert Selected(snap, ids, stringClass, matches) == Failure(e);
        var x :| x in init && Missing(snap, x, stringClass);
        assert x in ids;
      case Success(found) =>
        if Matching(snap, id, stringClass, matches) {
          assert Selected(snap, ids, stringClass, matches) == Success(found + [id]);
          SubsequenceExtend(found, init, id);
          FilterKeeps(snap, found, init, id, stringClass, matches);
        } else if Missing(snap, id, stringClass) {
          assert Selected(snap, ids, stringClass, matches) == Failure(NullPointer);
          assert id in ids;
        } else {
          assert Selected(snap, ids, stringClass, matches) == Success(found);
          SubsequenceWeaken(found, init, id);
          FilterSkips(snap, found, init, id, stringClass, matches);
        }
    }
  }

  lemma FilterKeeps(snap: Snapshot, found: seq<int>, init: seq<int>, id: int, stringClass: Option<int>,
                    matches: string -> bool)
    requires forall x :: x in init + [id] ==> x in snap.objects
    requires forall x :: x in found <==> x in init && Matching(snap, x, stringClass, matches)
    requires Matching(snap, id, stringClass, matches)
    ensures forall x :: x in found + [id] <==> x in init + [id] && Matching(snap, x, stringClass, matches)
  {
  }

  lemma FilterSkips(snap: Snapshot, found: seq<int>, init: seq<int>, id: int, stringClass: Option<int>,
                    matches: string -> bool)
    requires forall x :: x in init + [id] ==> x in snap.objects
    requires forall x :: x in found <==> x in init && Matching(snap, x, stringClass, matches)
    requires !Matching(snap, id, stringClass, matches)
    ensures forall x :: x in found <==> x in init + [id] && Matching(snap, x, stringClass, matches)
  {
  }

  /** Without an object set no id is skipped: the result is every scanned
      instance whose text matches. */
  lemma RosterExaminesAll(snap: Snapshot, id: int)
    requires id in snap.objects
    ensures Examined(snap, id, None)
  {
  }

  /** How many ids the scan visits: all of them, unless the cancel flag
      rises before the `k`-th test, in which case the first `k`. */
  function Visited(total: nat, cancel: Option<nat>): (n: nat)
    ensures n <= total
    ensures cancel.None? ==> n == total
  {
    match cancel
    case None => total
    case Some(k) => if k < total then k else total
  }

  /** The whole query.  `cancel` is the progress listener: `None` when it is
      never canceled, `Some(k)` when its flag is raised just before the
      `k`-th test of the scan (or, with fewer tests, before the final one)
      and stays raised. */
  function FindStringsResult(snap: Snapshot, roster: seq<StringClass>, objects: Option<seq<seq<int>>>,
                             pattern: string, matches: string -> bool, cancel: Option<nat>): Result<ObjectList, Error>
    requires forall x :: x in Flatten(Groups(roster, objects)) ==> x in snap.objects
  {
    if objects.Some? && roster == [] then Failure(NoSuchElement)
    else
      var scan := Flatten(Groups(roster, objects));
      var stringClass := if objects.Some? then Some(roster[0].classId) else None;
      Outcome(Selected(snap, scan[..Visited(|scan|, cancel)], stringClass, matches), pattern, cancel)
  }

  /** The end of `execute`: the selection's failure, the cancellation of
      an empty selection, or the labelled list. */
  function Outcome(selection: Result<seq<int>, Error>, pattern: string, cancel: Option<nat>): Result<ObjectList, Error>
  {
    match selection
    case Failure(e) => Failure(e)
    case Success(found) =>
      if cancel.Some? && found == [] then Failure(OperationCanceled)
      else Success(ObjectList(Label(pattern), found))
  }

  /** Cancellation: it raises only when nothing was found, and a partial
      result is returned otherwise.  Which ids a search reports is stated
      by `Visited` and `SelectedIsFilter`. */
  lemma CancellationOutcome(snap: Snapshot, roster: seq<StringClass>, objects: Option<seq<seq<int>>>,
                            pattern: string, matches: string -> bool, cancel: Option<nat>)
    requires forall x :: x in Flatten(Groups(roster, objects)) ==> x in snap.objects
    ensures var r := FindStringsResult(snap, roster, objects, pattern, matches, cancel);
            (r == Failure(OperationCanceled) ==> cancel.Some?) &&
            (r.Success? ==> r.value.caption == "Strings matching " + pattern) &&
            (r.Success? ==> IsSubsequence(r.value.ids, Flatten(Groups(roster, objects)))) &&
            (r.Success? && cancel.Some? ==> r.value.ids != [])
  {
    var r := FindStringsResult(snap, roster, objects, pattern, matches, cancel);
    if !(objects.Some? && roster == []) {
      var scan := Flatten(Groups(roster, objects));
      var n := Visited(|scan|, cancel);
      var stringClass := if objects.Some? then Some(roster[0].classId) else None;
      SelectedIsFilter(snap, scan[..n], stringClass, matches);
      if r.Success? {
        PrefixSubsequence(r.value.ids, scan, n);
      }
    }
  }

  /** A subsequence of a prefix is a subsequence of the whole. */
  lemma {:induction false} PrefixSubsequence(r: seq<int>, s: seq<int>, n: nat)
    requires n <= |s| && IsSubsequence(r, s[..n])
    ensures IsSubsequence(r, s)
    decreases |s| - n
  {
    if n < |s| {
      SubsequenceWeaken(r, s[..n], s[n]);
      assert s[..n] + [s[n]] == s[..n + 1];
      PrefixSubsequence(r, s, n + 1);
    } else {
      assert s[..n] == s;
    }
  }

  /** The ids scanned up to the `j`-th of group `g` are a prefix of the
      whole scan. */
  lemma FlattenPrefix(groups: seq<seq<int>>, g: nat, j: nat)
    requires g < |groups| && j <= |groups[g]|
    ensures |Flatten(groups[..g])| + j <= |Flatten(groups)|
    ensures Flatten(groups[..g]) + groups[g][..j] == Flatten(groups)[..|Flatten(groups[..g])| + j]
  {
    FlattenAppend(groups[..g], [groups[g]]);
    assert groups[..g + 1] == groups[..g] + [groups[g]];
    assert Flatten([groups[g]]) == groups[g] by {
      assert [groups[g]][..0] == [];
    }
    FlattenAppend(groups[..g + 1], groups[g + 1..]);
    assert groups[..g + 1] + groups[g + 1..] == groups;
  }

  /** Extending the scanned prefix by one id extends the selection by
      at most that id. */
  lemma SelectedStep(snap: Snapshot, scan: seq<int>, n: nat, stringClass: Option<int>, matches: string -> bool)
    requires n < |scan| && forall x :: x in scan ==> x in snap.objects
    ensures Selected(snap, scan[..n + 1], stringClass, matches) ==
            match Selected(snap, scan[..n], stringClass, matches)
            case Failure(e) => Failure(e)
            case Success(found) =>
              if !Examined(snap, scan[n], stringClass) then Success(found)
              else match Text(snap, scan[n])
                case None => Failure(NullPointer)
                case Some(t) => if matches(t) then Success(found + [scan[n]]) else Success(found)
  {
    assert scan[..n + 1][..n] == scan[..n];
  }

  /** How the scan of one group ends: it went through the group, or it
      saw the cancel flag, or an examined id had no text. */
  datatype GroupEnd = Finished | Canceled | NoText

  /** The inner loop of `execute`: the ids of one group, which sit at
      `scan[start..start + |ids|]`. */
  method ScanGroup(snap: Snapshot, ghost scan: seq<int>, ids: seq<int>, start: nat, stringClass: Option<int>,
                   matches: string -> bool, cancel: Option<nat>, found: seq<int>)
    returns (result: seq<int>, checks: nat, end: GroupEnd)
    requires start + |ids| <= |scan| && scan[start..start + |ids|] == ids
    requires forall x :: x in scan ==> x in snap.objects
    requires cancel.None? || start <= cancel.value
    requires Selected(snap, scan[..start], stringClass, matches) == Success(found)
    ensures start <= checks <= start + |ids|
    ensures end == Finished ==> checks == start + |ids| && (cancel.None? || checks <= cancel.value)
    ensures end == Canceled ==> cancel == Some(checks)
    ensures end != NoText ==> Selected(snap, scan[..checks], stringClass, matches) == Success(result)
    ensures end == NoText ==> Selected(snap, scan[..checks], stringClass, matches) == Failure(NullPointer) &&
                              checks <= Visited(|scan|, cancel)
  {
    result, checks := found, start;
    var j := 0;
    while j < |ids|
      invariant 0 <= j <= |ids| && checks == start + j
      invariant cancel.None? || checks <= cancel.value
      invariant Selected(snap, scan[..checks], stringClass, matches) == Success(result)
    {
      if cancel.Some? && checks == cancel.value {
        return result, checks, Canceled;
      }
      var id := ids[j];
      assert scan[checks] == id;
      SelectedStep(snap, scan, checks, stringClass, matches);
      checks := checks + 1;
      j := j + 1;
      var o := snap.objects[id];
      if stringClass.Some? && (o.isArray || o.isClass || o.isClassLoader) {
        continue;
      }
      if stringClass.Some? && o.classId != stringClass.value {
        continue;
      }
      match o.specificName
      case None =>
        return result, checks, NoText;
      case Some(value) =>
        if matches(value) {
          result := result + [id];
        }
    }
    end := Finished;
  }

  /** The scan over all groups, stopping on cancellation or on an examined
      id without text: either the selection of every visited id, or the
      failure the visited ids give. */
  method ScanGroups(snap: Snapshot, groups: seq<seq<int>>, stringClass: Option<int>,
                    matches: string -> bool, cancel: Option<nat>) returns (result: seq<int>, failed: bool)
    requires forall x :: x in Flatten(groups) ==> x in snap.objects
    ensures !failed ==> Selected(snap, Flatten(groups)[..Visited(|Flatten(groups)|, cancel)], stringClass, matches) == Success(result)
    ensures failed ==> Selected(snap, Flatten(groups)[..Visited(|Flatten(groups)|, cancel)], stringClass, matches) == Failure(NullPointer)
  {
    ghost var scan := Flatten(groups);
    result := [];
    var checks: nat := 0;
    var g := 0;
    while g < |groups|
      invariant 0 <= g <= |groups| && checks <= |scan|
      invariant Flatten(groups[..g]) == scan[..checks]
      invariant cancel.None? || checks <= cancel.value
      invariant Selected(snap, scan[..checks], stringClass, matches) == Success(result)
    {
      var ids := groups[g];
      FlattenPrefix(groups, g, |ids|);
      assert ids[..|ids|] == ids;
      assert scan[checks..checks + |ids|] == ids;
      var end;
      result, checks, end := ScanGroup(snap, scan, ids, checks, stringClass, matches, cancel, result);
      if end == Canceled {
        break;
      }
      if end == NoText {
        ScanStopsAtFailure(snap, scan, stringClass, matches, checks, Visited(|scan|, cancel));
        return result, true;
      }
      GroupsStep(groups, g);
      g := g + 1;
    }
    assert checks == Visited(|scan|, cancel) by {
      if g == |groups| {
        assert groups[..g] == groups;
      }
    }
    failed := false;
  }

  /** `execute`: the scan over all groups, then the outcome. */
  method Execute(snap: Snapshot, roster: seq<StringClass>, objects: Option<seq<seq<int>>>,
                 pattern: string, matches: string -> bool, cancel: Option<nat>) returns (r: Result<ObjectList, Error>)
    requires forall x :: x in Flatten(Groups(roster, objects)) ==> x in snap.objects
    ensures r == FindStringsResult(snap, roster, objects, pattern, matches, cancel)
  {
    var stringClass: Option<int> := None;
    if objects.Some? {
      if roster == [] {
        return Failure(NoSuchElement);
      }
      stringClass := Some(roster[0].classId);
    }
    var result, failed := ScanGroups(snap, Groups(roster, objects), stringClass, matches, cancel);
    if failed {
      return Failure(NullPointer);
    }
    if cancel.Some? && result == [] {
      return Failure(OperationCanceled);
    }
    return Success(ObjectList(Label(pattern), result));
  }

  lemma GroupsStep(groups: seq<seq<int>>, g: nat)
    requires g < |groups|
    ensures Flatten(groups[..g + 1]) == Flatten(groups[..g]) + groups[g]
  {
    assert groups[..g + 1][..g] == groups[..g];
  }

  /** A failure on a prefix of the visited ids is the failure of the whole
      visited scan. */
  lemma {:induction false} ScanStopsAtFailure(snap: Snapshot, scan: seq<int>, stringClass: Option<int>,
                                              matches: string -> bool, m: nat, n: nat)
    requires m <= n <= |scan|
    requires forall x :: x in scan ==> x in snap.objects
    requires Selected(snap, scan[..m], stringClass, matches).Failure?
    ensures Selected(snap, scan[..n], stringClass, matches) == Selected(snap, scan[..m], stringClass, matches)
    decreases n - m
  {
    if m < n {
      ScanStopsAtFailure(snap, scan, stringClass, matches, m, n - 1);
      assert scan[..n][..n - 1] == scan[..n - 1];
    }
  }
}
