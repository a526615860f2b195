/** The list model behind a tab of the update dialog: a list of package ids, filled by a
    background fetch that reports its progress, and shown through a descriptor cache. */
module PackageList {
  import opened Wrappers
  import opened Lists

  /** A PackageDescriptor, reduced to its id and name. */
  datatype Descriptor = Descriptor(packageId: string, name: string)

  /** What getElementAt shows: the loading message with the progress, the no-packages message,
      or the cache's descriptor for the package (null when the cache has none). */
  datatype Element = Loading(completed: int) | NoPackages | Package(descriptor: Option<Descriptor>)

  /** The ArrayList.get failure of getElementAt. */
  datatype ListError = IndexOutOfBounds(index: int)

  /** The test the fetch loop applies to each name: the cache has a descriptor for it. */
  function Known(cache: string -> Option<Descriptor>): string -> bool
  {
    name => cache(name).Some?
  }

  /** The fetched names the cache can resolve, in their original order. */
  function Resolved(names: seq<string>, cache: string -> Option<Descriptor>): seq<string>
  {
    Filter(names, Known(cache))
  }

  /** A name survives the fetch loop exactly when it was fetched and the cache resolves it, the
      survivors keep their relative order, and a list the cache fully resolves is kept whole. */
  lemma ResolvedNames(names: seq<string>, more: seq<string>, cache: string -> Option<Descriptor>, x: string)
    ensures x in Resolved(names, cache) <==> x in names && cache(x).Some?
    ensures Resolved(names + more, cache) == Resolved(names, cache) + Resolved(more, cache)
    ensures (forall i :: 0 <= i < |names| ==> cache(names[i]).Some?) ==> Resolved(names, cache) == names
  {
    FilterMembers(names, Known(cache), x);
    FilterAppend(names, more, Known(cache));
    if forall i :: 0 <= i < |names| ==> cache(names[i]).Some? {
      FilterKeepsAll(names, Known(cache));
    }
  }

  /** One step of the iterator over the fetched list: the list is the resolved prefix followed by
      the names not yet looked up, and the name at the cursor is dropped unless it resolves. */
  lemma FetchStep(names: seq<string>, a: int, cursor: int, current: seq<string>, cache: string -> Option<Descriptor>)
    requires 0 <= a < |names| && cursor == |Resolved(names[..a], cache)|
    requires current == Resolved(names[..a], cache) + names[a..]
    ensures cursor < |current| && current[cursor] == names[a]
    ensures cache(names[a]).None? ==>
      current[..cursor] + current[cursor + 1..] == Resolved(names[..a + 1], cache) + names[a + 1..]
    ensures cache(names[a]).Some? ==>
      cursor + 1 == |Resolved(names[..a + 1], cache)| && current == Resolved(names[..a + 1], cache) + names[a + 1..]
  {
    FilterSnoc(names, a, Known(cache));
    assert names[a..] == [names[a]] + names[a + 1..];
    if cache(names[a]).None? {
      assert current[..cursor] == Resolved(names[..a], cache);
      assert current[cursor + 1..] == names[a + 1..];
    }
  }

  /** The progress reported after the a-th of size names has been looked up, in Java's int
      division (which truncates, as Dafny's does on these non-negative operands). */
  function Progress(a: int, size: int): int
    requires 0 < a <= size
  {
    30 + 70 * a / size
  }

  /** The values reported up to the a-th looked-up name: 5 before fetching, 25 after, then
      one value per name. */
  function ProgressUpTo(a: nat, size: int): seq<int>
    requires a <= size
  {
    if a == 0 then [5, 25] else ProgressUpTo(a - 1, size) + [Progress(a, size)]
  }

  /** Every progress value of one run of the fetch task, in order. */
  function ProgressValues(size: nat): seq<int>
  {
    ProgressUpTo(size, size)
  }

  /** The first two values are 5 and 25, and the entry at i >= 2 is the formula's value after
      i - 1 names. */
  lemma {:induction false} ProgressUpToAt(a: nat, size: int, i: int)
    requires a <= size && 0 <= i < a + 2
    ensures |ProgressUpTo(a, size)| == a + 2
    ensures i == 0 ==> ProgressUpTo(a, size)[i] == 5
    ensures i == 1 ==> ProgressUpTo(a, size)[i] == 25
    ensures 2 <= i ==> ProgressUpTo(a, size)[i] == Progress(i - 1, size)
  {
    if a > 0 {
      if i < a + 1 {
        ProgressUpToAt(a - 1, size, i);
      } else {
        ProgressUpToAt(a - 1, size, 0);
      }
    }
  }

  /** Exactly size + 2 values are reported. */
  lemma ProgressValuesLength(size: nat)
    ensures |ProgressValues(size)| == size + 2
  {
    ProgressUpToAt(size, size, 0);
  }

  /** The values never decrease. */
  lemma ProgressValuesMonotone(size: nat, i: int, j: int)
    requires 0 <= i <= j < |ProgressValues(size)|
    ensures ProgressValues(size)[i] <= ProgressValues(size)[j]
  {
    ProgressValuesLength(size);
    ProgressUpToAt(size, size, i);
    ProgressUpToAt(size, size, j);
    if 2 <= i {
      ProgressMonotone(i - 1, j - 1, size);
    } else if 2 <= j {
      ProgressBounds(j - 1, size);
    }
  }

  /** The values lie in [5, 100], those after the first two in [30, 100]. */
  lemma ProgressValuesBounded(size: nat, i: int)
    requires 0 <= i < |ProgressValues(size)|
    ensures 5 <= ProgressValues(size)[i] <= 100
    ensures 2 <= i ==> 30 <= ProgressValues(size)[i]
  {
    ProgressValuesLength(size);
    ProgressUpToAt(size, size, i);
    if 2 <= i {
      ProgressBounds(i - 1, size);
    }
  }

  /** The last value is exactly 100 when anything was fetched; with nothing fetched the last
      value is 25 and the formula, which divides by the size, is never evaluated. */
  lemma ProgressValuesEnd(size: nat)
    ensures size > 0 ==> ProgressValues(size)[|ProgressValues(size)| - 1] == 100
    ensures size == 0 ==> ProgressValues(size) == [5, 25]
  {
    if size > 0 {
      ProgressValuesLength(size);
      ProgressUpToAt(size, size, size + 1);
      ProgressFull(size);
    }
  }

  lemma ProgressFull(size: int)
    requires size > 0
    ensures Progress(size, size) == 100
  {
    MulDiv(70, size);
  }

  lemma MulDiv(k: int, d: int)
    requires d > 0
    ensures k * d / d == k
  {
    var q, r := k * d / d, k * d % d;
    assert q * d + r == k * d && 0 <= r < d;
    assert (k - q) * d == r;
    MulCancel(k - q, 1, d);
    MulCancel(-1, k - q, d);
  }

  lemma ProgressBounds(a: int, size: int)
    requires 0 < a <= size
    ensures 30 <= Progress(a, size) <= 100
  {
    assert 0 <= 70 * a <= 70 * size;
    DivMonotone(0, 70 * a, size);
    DivMonotone(70 * a, 70 * size, size);
    MulDiv(70, size);
  }

  lemma ProgressMonotone(a: int, b: int, size: int)
    requires 0 < a <= b <= size
    ensures Progress(a, size) <= Progress(b, size)
  {
    DivMonotone(70 * a, 70 * b, size);
  }

  lemma DivMonotone(x: int, y: int, d: int)
    requires 0 <= x <= y && d > 0
    ensures x / d <= y / d
  {
    var q, r := x / d, y / d;
    assert q * d + x % d == x && 0 <= x % d;
    assert r * d + y % d == y && y % d < d;
    assert (r + 1) * d == r * d + d;
    MulCancel(q, r + 1, d);
  }

  lemma MulCancel(a: int, b: int, d: int)
    requires d > 0 && a * d < b * d
    ensures a < b
  {
    assert (b - a) * d == b * d - a * d;
  }

  class PackageListModel {
    /** PackageDescriptorCache.getPackageInfo(name, "ANY"). */
    const cache: string -> Option<Descriptor>
    var updatedOnce: bool
    var fetching: bool
    var completed: int
    var packageNames: seq<string>
    /** Fetch tasks update has started and that have not run yet. */
    var pendingTasks: nat

    constructor (cache: string -> Option<Descriptor>)
      ensures this.cache == cache
      ensures !updatedOnce && !fetching && completed == 0 && packageNames == [] && pendingTasks == 0
    {
      this.cache := cache;
      updatedOnce := false;
      fetching := false;
      completed := 0;
      packageNames := [];
      pendingTasks := 0;
    }

    /** shouldUpdate, as the base class defines it. */
    function ShouldUpdate(): (r: bool)
      reads this
      ensures r <==> !updatedOnce
    {
      !updatedOnce
    }

    /** update(): when an update is due, marks the model as fetching and starts a fetch task;
        an update while an earlier task has not finished starts another one. */
    method Update()
      modifies this`fetching, this`pendingTasks
      ensures old(ShouldUpdate()) ==> fetching && pendingTasks == old(pendingTasks) + 1
      ensures !old(ShouldUpdate()) ==> fetching == old(fetching) && pendingTasks == old(pendingTasks)
    {
      if ShouldUpdate() {
        fetching := true;
        pendingTasks := pendingTasks + 1;
      }
    }

    /** The body of the fetch task; fetched is what fetchPackageNames returns, None when it
        throws. The result is the sequence of values handed to the progress listener. */
    method RunFetchTask(fetched: Option<seq<string>>) returns (progress: seq<int>)
      requires pendingTasks > 0
      modifies this`packageNames, this`completed, this`fetching, this`updatedOnce, this`pendingTasks
      ensures pendingTasks == old(pendingTasks) - 1 && !fetching
      ensures fetched.Some? ==> !ShouldUpdate()
      ensures fetched.None? ==> ShouldUpdate() == old(ShouldUpdate())
      ensures fetched.None? ==>
        && updatedOnce == old(updatedOnce) && packageNames == old(packageNames)
        && progress == [5] && completed == 5
      ensures fetched.Some? ==>
        && updatedOnce
        && packageNames == Resolved(fetched.value, cache)
        && progress == ProgressValues(|fetched.value|)
        && completed == progress[|progress| - 1]
    {
      pendingTasks := pendingTasks - 1;
      progress := [5];
      completed := 5;
      if fetched.None? {
        fetching := false;
        return;
      }
      packageNames := fetched.value;
      progress := progress + [25];
      completed := 25;
      progress := LookUpNames(progress);
      updatedOnce := true;
      fetching := false;
    }

    /** The iterator loop of the fetch task: looks every fetched name up in the cache, removes
        those it cannot resolve and reports the progress after each one. */
    method LookUpNames(progress0: seq<int>) returns (progress: seq<int>)
      requires progress0 == [5, 25] && completed == 25
      modifies this`packageNames, this`completed
      ensures packageNames == Resolved(old(packageNames), cache)
      ensures progress == ProgressValues(|old(packageNames)|)
      ensures completed == progress[|progress| - 1]
    {
      ghost var names := packageNames;
      progress := progress0;
      var size := |packageNames|;
      var a := 0;
      var cursor := 0;
      while a < size
        invariant 0 <= a <= size && cursor == |Resolved(names[..a], cache)|
        invariant packageNames == Resolved(names[..a], cache) + names[a..]
        invariant progress == ProgressUpTo(a, size)
        invariant completed == progress[|progress| - 1]
      {
        FetchStep(names, a, cursor, packageNames, cache);
        var packageName := packageNames[cursor];
        var descriptor := cache(packageName);
        if descriptor.None? {
          packageNames := packageNames[..cursor] + packageNames[cursor + 1..];
        } else {
          cursor := cursor + 1;
        }
        a := a + 1;
        var value := Progress(a, size);
        progress := progress + [value];
        completed := value;
      }
      assert names[..size] == names;
    }

    /** getSize: one row while fetching or when the list is empty, else one row per package. */
    function GetSize(): (r: int)
      reads this
      ensures r >= 1
      ensures fetching || packageNames == [] ==> r == 1
      ensures !fetching && packageNames != [] ==> r == |packageNames|
    {
      if fetching then 1 else if |packageNames| > 0 then |packageNames| else 1
    }

    /** getElementAt. */
    function GetElementAt(index: int): (r: Result<Element, ListError>)
      reads this
      ensures fetching ==> r == Success(Loading(completed))
      ensures !fetching && packageNames == [] ==> r == Success(NoPackages)
      ensures !fetching && packageNames != [] && 0 <= index < |packageNames| ==>
        r == Success(Package(cache(packageNames[index])))
      ensures !fetching && packageNames != [] && !(0 <= index < |packageNames|) ==> r == Failure(IndexOutOfBounds(index))
    {
      if fetching then Success(Loading(completed))
      else if |packageNames| == 0 then Success(NoPackages)
      else if 0 <= index < |packageNames| then Success(Package(cache(packageNames[index])))
      else Failure(IndexOutOfBounds(index))
    }

    /** update(PackageDescriptor): the row whose contents changed, -1 when the package is not
        listed. */
    function ChangedRow(descriptor: Descriptor): (r: int)
      reads this
      ensures r == -1 <==> descriptor.packageId !in packageNames
      ensures r != -1 ==> 0 <= r < |packageNames| && packageNames[r] == descriptor.packageId
    {
      IndexOf(packageNames, descriptor.packageId)
    }

    /** add: appends the package's id. */
    method Add(descriptor: Descriptor)
      modifies this`packageNames
      ensures packageNames == old(packageNames) + [descriptor.packageId]
      ensures |packageNames| == |old(packageNames)| + 1 && packageNames[|packageNames| - 1] == descriptor.packageId
      ensures packageNames[..|old(packageNames)|] == old(packageNames)
    {
      packageNames := packageNames + [descriptor.packageId];
    }
  }
}
