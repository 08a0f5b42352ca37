/**
  The deterministic part of prepare_substack_dir.py: the names of a substack
  and of its directories, the parameter record it writes, the choice and
  indexing of the input slice files, and the plan that links (or copies)
  slices start, start+1, ..., stop-1 to input_slices/00000<ext>,
  input_slices/00001<ext>, ...

  The file system is a parameter: `resolve` stands for `os.path.abspath`,
  `listDir` for the `glob` of a directory, and two booleans for the
  existence of the cookiecutter directory and of its template.
*/
module PrepareSubstackDir {
  import opened Wrappers
  import opened Decimal
  import opened PosixPath

  /** Billing project recorded for every substack. */
  const BILL_TO := "flyem"

  /** The command line after argument parsing; an absent option is None. */
  datatype Args = Args(
    fly: string,
    region: string,
    inputSliceDir: Option<string>,
    substackName: Option<string>,
    parentOutputDir: string,
    copyInput: bool,
    tabNumber: int,
    startSlice: int,
    stopSlice: int)

  /** The record dumped to substack-params.json and handed to the template. */
  datatype SubstackParams = SubstackParams(
    substackName: string,
    substackBaseDir: string,
    substackSliceDir: string,
    fly: string,
    tabName: string,
    billTo: string)

  /** One file operation of the renumbering step: copy `src` to `dest`, or create at `dest` a symbolic link to `src`. */
  datatype Action = CopyFile(src: string, dest: string) | Symlink(src: string, dest: string)

  datatype PrepareError =
    | MissingCookiecutterDir         // sys.exit(1): the cookiecutter directory is absent
    | MissingTemplate                // sys.exit(1): the template sub-directory is absent or misnamed
    | SetupFailed(baseDir: string)   // rendering, makedirs or chmod raised (e.g. the substack already exists)
    | NoSliceFiles                   // IndexError: no .png or .tif file in the input directory
    | Unnumbered(path: string)       // RuntimeError: a slice file name without digits
    | MissingIndex(index: int)       // KeyError: a slice of the range is not in the input directory

  /**
    What a run leaves behind: the parameters, present once the substack
    directory has been set up from the template with its record dumped; the
    file actions carried out, in order; and the error that stopped the run, if
    any. Nothing is rolled back, so a failed run may still have parameters and
    a prefix of the actions.
  */
  datatype Outcome = Outcome(params: Option<SubstackParams>, actions: seq<Action>, error: Option<PrepareError>)

  /** An option counts as given when it is present and not empty (`if not args.x` treats both alike). */
  predicate Given(o: Option<string>) {
    o.Some? && o.value != ""
  }

  // ----- Names and paths -----

  /** `f"Sec{tab_number:02d}"` */
  function TabName(tabNumber: int): string {
    "Sec" + ZeroPadded(tabNumber, 2)
  }

  /** A tab name is "Sec" and the slab number in at least two digits; five characters for slabs 0 to 99. */
  lemma TabNameShape(n: nat)
    ensures |TabName(n)| >= 5 && TabName(n)[..3] == "Sec"
    ensures AllDigits(TabName(n)[3..]) && DigitsValue(TabName(n)[3..]) == n
    ensures n <= 99 ==> |TabName(n)| == 5
  {
    var t := TabName(n);
    ZeroPaddedNatural(n, 2);
    assert t[3..] == ZeroPadded(n, 2);
    if n <= 99 {
      assert Pow10(2) == 100;
      DecimalLength(n, 2);
    }
  }

  /** The deployment's directory of a slab's slices: "/nrs/flyem/alignment/{fly}/{region}/{tab_name}/zcorr". */
  function DefaultSliceDir(fly: string, region: string, tabName: string): string {
    "/nrs/flyem/alignment/" + fly + "/" + region + "/" + tabName + "/zcorr"
  }

  /** The directory the input slices are read from: the one given, else the slab's directory in the deployment. */
  function InputSliceDir(args: Args): (d: string)
    ensures Given(args.inputSliceDir) ==> d == args.inputSliceDir.value
    ensures !Given(args.inputSliceDir) ==> d == DefaultSliceDir(args.fly, args.region, TabName(args.tabNumber))
  {
    if Given(args.inputSliceDir) then args.inputSliceDir.value
    else DefaultSliceDir(args.fly, args.region, TabName(args.tabNumber))
  }

  /** In `x + "/" + y`, with no '/' in `x`, the first '/' is the one after `x`. */
  lemma FirstSlash(x: string, y: string)
    requires '/' !in x
    ensures (x + "/" + y)[|x|] == '/'
    ensures forall i :: 0 <= i < |x| ==> (x + "/" + y)[i] != '/'
  {
    forall i | 0 <= i < |x| ensures (x + "/" + y)[i] != '/' {
      assert (x + "/" + y)[i] == x[i];
    }
  }

  /** Text without '/' in front of a '/' can be split off in one way only. */
  lemma SlashSplit(x: string, y: string, x': string, y': string)
    requires '/' !in x && '/' !in x'
    requires x + "/" + y == x' + "/" + y'
    ensures x == x' && y == y'
  {
    var s := x + "/" + y;
    FirstSlash(x, y);
    FirstSlash(x', y');
    assert |x| == |x'|;
    assert x == s[..|x|] && x' == s[..|x'|];
    assert y == s[|x| + 1..] && y' == s[|x'| + 1..];
  }

  /**
    Different flies, regions or slabs, none of whose names holds a '/', have
    different default slice directories.
  */
  lemma DefaultSliceDirInjective(fly: string, region: string, tabName: string,
                                 fly': string, region': string, tabName': string)
    requires '/' !in fly && '/' !in region && '/' !in tabName
    requires '/' !in fly' && '/' !in region' && '/' !in tabName'
    requires DefaultSliceDir(fly, region, tabName) == DefaultSliceDir(fly', region', tabName')
    ensures fly == fly' && region == region' && tabName == tabName'
  {
    var root := "/nrs/flyem/alignment/";
    var rest := region + "/" + (tabName + "/" + "zcorr");
    var rest' := region' + "/" + (tabName' + "/" + "zcorr");
    assert DefaultSliceDir(fly, region, tabName) == root + (fly + "/" + rest);
    assert DefaultSliceDir(fly', region', tabName') == root + (fly' + "/" + rest');
    CancelPrefix(root, fly + "/" + rest, fly' + "/" + rest');
    SlashSplit(fly, rest, fly', rest');
    SlashSplit(region, tabName + "/" + "zcorr", region', tabName' + "/" + "zcorr");
    SlashSplit(tabName, "zcorr", tabName', "zcorr");
  }

  /** `f"substack-{tab_name}-z{start_slice:05d}-z{stop_slice:05d}"` */
  function DefaultSubstackName(tabName: string, start: int, stop: int): string {
    "substack-" + tabName + "-z" + ZeroPadded(start, 5) + "-z" + ZeroPadded(stop, 5)
  }

  /** A run of digits followed by a non-digit can be split off in one way only. */
  lemma DigitRunSplit(x: string, y: string, x': string, y': string)
    requires AllDigits(x) && AllDigits(x')
    requires y != [] && !IsDigit(y[0]) && y' != [] && !IsDigit(y'[0])
    requires x + y == x' + y'
    ensures x == x' && y == y'
  {
    assert x == (x + y)[..|x|] && x' == (x' + y')[..|x'|];
    assert y == (x + y)[|x|..] && y' == (x' + y')[|x'|..];
  }

  /** Removing a common prefix. */
  lemma CancelPrefix(p: string, x: string, y: string)
    requires p + x == p + y
    ensures x == y
  {
    assert x == (p + x)[|p|..];
    assert y == (p + y)[|p|..];
  }

  /** The two digit fields of a default name can be read back apart. */
  lemma DigitFieldsSplit(prefix: string, a: string, b: string, a': string, b': string)
    requires AllDigits(a) && AllDigits(a')
    requires prefix + a + "-z" + b == prefix + a' + "-z" + b'
    ensures a == a' && b == b'
  {
    assert prefix + a + "-z" + b == prefix + (a + ("-z" + b));
    assert prefix + a' + "-z" + b' == prefix + (a' + ("-z" + b'));
    CancelPrefix(prefix, a + ("-z" + b), a' + ("-z" + b'));
    DigitRunSplit(a, "-z" + b, a', "-z" + b');
    CancelPrefix("-z", b, b');
  }

  /** Different slice ranges of one slab get different default names. */
  lemma DefaultSubstackNameInjective(tabName: string, start: nat, stop: nat, start': nat, stop': nat)
    requires DefaultSubstackName(tabName, start, stop) == DefaultSubstackName(tabName, start', stop')
    ensures start == start' && stop == stop'
  {
    ZeroPaddedNatural(start, 5);
    ZeroPaddedNatural(start', 5);
    DigitFieldsSplit("substack-" + tabName + "-z",
                     ZeroPadded(start, 5), ZeroPadded(stop, 5), ZeroPadded(start', 5), ZeroPadded(stop', 5));
    ZeroPaddedInjective(start, start', 5);
    ZeroPaddedInjective(stop, stop', 5);
  }

  /** The substack name: the one given on the command line, else the default. */
  function SubstackName(args: Args): string {
    if Given(args.substackName) then args.substackName.value
    else DefaultSubstackName(TabName(args.tabNumber), args.startSlice, args.stopSlice)
  }

  /** `abspath(parent_output_dir) + '/' + substack_name` */
  function BaseDir(resolvedParent: string, name: string): string {
    resolvedParent + "/" + name
  }

  /** `f"{substack_base_dir}/input_slices"` */
  function SliceDir(baseDir: string): string {
    baseDir + "/input_slices"
  }

  /**
    The base directory is a child of the parent named after the substack
    (as long as the name holds no '/'), and the slice directory is its child
    "input_slices".
  */
  lemma SubstackDirNames(resolvedParent: string, name: string)
    requires '/' !in name
    ensures Basename(BaseDir(resolvedParent, name)) == name
    ensures Basename(SliceDir(BaseDir(resolvedParent, name))) == "input_slices"
  {
    var base := BaseDir(resolvedParent, name);
    BasenameOfChild(resolvedParent, name);
    assert SliceDir(base) == base + "/" + "input_slices";
    BasenameOfChild(base, "input_slices");
  }

  /** The parameters of a run; `resolve` is `os.path.abspath`. */
  function MakeParams(args: Args, resolve: string -> string): (p: SubstackParams)
    ensures Given(args.substackName) ==> p.substackName == args.substackName.value
    ensures !Given(args.substackName) ==>
      p.substackName == DefaultSubstackName(TabName(args.tabNumber), args.startSlice, args.stopSlice)
    ensures p.substackBaseDir == BaseDir(resolve(args.parentOutputDir), p.substackName)
    ensures p.substackSliceDir == SliceDir(p.substackBaseDir)
    ensures p.fly == args.fly && p.tabName == TabName(args.tabNumber) && p.billTo == BILL_TO
  {
    var name := SubstackName(args);
    var baseDir := BaseDir(resolve(args.parentOutputDir), name);
    SubstackParams(name, baseDir, SliceDir(baseDir), args.fly, TabName(args.tabNumber), BILL_TO)
  }

  /** The JSON object dumped to substack-params.json: one string per key. */
  function ParamsJson(p: SubstackParams): (json: map<string, string>)
    ensures json.Keys == {"substack_name", "substack_base_dir", "substack_slice_dir", "fly", "tab_name", "bill_to"}
    ensures json["substack_name"] == p.substackName && json["substack_base_dir"] == p.substackBaseDir
    ensures json["substack_slice_dir"] == p.substackSliceDir && json["fly"] == p.fly
    ensures json["tab_name"] == p.tabName && json["bill_to"] == p.billTo
  {
    map[
      "substack_name" := p.substackName,
      "substack_base_dir" := p.substackBaseDir,
      "substack_slice_dir" := p.substackSliceDir,
      "fly" := p.fly,
      "tab_name" := p.tabName,
      "bill_to" := p.billTo
    ]
  }

  // ----- Choosing and indexing the input slices -----

  predicate IsSliceFile(p: string) {
    Ext(p) == ".png" || Ext(p) == ".tif"
  }

  /** The listed paths with extension ".png" or ".tif", in listing order. */
  function FilterSlices(paths: seq<string>): (kept: seq<string>)
    ensures forall p :: p in kept <==> p in paths && IsSliceFile(p)
    ensures |kept| <= |paths|
  {
    if paths == [] then []
    else (if IsSliceFile(paths[0]) then [paths[0]] else []) + FilterSlices(paths[1..])
  }

  /** Filtering a listing piecewise gives the same, in the same order. */
  lemma {:induction false} FilterSlicesAppend(a: seq<string>, b: seq<string>)
    ensures FilterSlices(a + b) == FilterSlices(a) + FilterSlices(b)
    decreases |a|
  {
    if a == [] {
      assert a + b == b;
    } else {
      assert (a + b)[0] == a[0] && (a + b)[1..] == a[1..] + b;
      FilterSlicesAppend(a[1..], b);
    }
  }

  /** The index of a slice file: the first run of digits in its base name. */
  function SliceIndex(p: string): Option<nat> {
    FirstDigitRun(Basename(p))
  }

  /**
    The map from slice index to resolved path that the loop over the kept
    files builds: a later file with the same index replaces an earlier one,
    and the first file without an index aborts the loop. The script indexes
    with `SliceIndex`; the properties below hold for any `indexOf`.
  */
  function Indexed(paths: seq<string>, indexOf: string -> Option<nat>, resolve: string -> string): Result<map<int, string>, PrepareError>
    decreases |paths|
  {
    if paths == [] then Ok(map[])
    else
      var p := paths[|paths| - 1];
      match Indexed(paths[..|paths| - 1], indexOf, resolve)
      case Err(e) => Err(e)
      case Ok(m) =>
        match indexOf(p)
        case None => Err(Unnumbered(p))
        case Some(k) => Ok(m[k := resolve(p)])
  }

  /** Indexing succeeds exactly when every file has an index (for `SliceIndex`: a digit in its name). */
  lemma {:induction false} IndexedOkIff(paths: seq<string>, indexOf: string -> Option<nat>, resolve: string -> string)
    ensures Indexed(paths, indexOf, resolve).Ok? <==> forall j :: 0 <= j < |paths| ==> indexOf(paths[j]).Some?
    decreases |paths|
  {
    if paths != [] {
      var init, last := paths[..|paths| - 1], paths[|paths| - 1];
      IndexedOkIff(init, indexOf, resolve);
      assert Indexed(paths, indexOf, resolve).Ok? <==> Indexed(init, indexOf, resolve).Ok? && indexOf(last).Some?;
      if forall j :: 0 <= j < |paths| ==> indexOf(paths[j]).Some? {
        forall j | 0 <= j < |init| ensures indexOf(init[j]).Some? {
          assert init[j] == paths[j];
        }
      } else {
        var j :| 0 <= j < |paths| && indexOf(paths[j]).None?;
        if j < |init| {
          assert init[j] == paths[j];
        }
      }
    }
  }

  /** The error names the first file without an index. */
  lemma {:induction false} IndexedFirstUnnumbered(paths: seq<string>, indexOf: string -> Option<nat>, resolve: string -> string, j: nat)
    requires j < |paths| && indexOf(paths[j]).None?
    requires forall k :: 0 <= k < j ==> indexOf(paths[k]).Some?
    ensures Indexed(paths, indexOf, resolve) == Err(Unnumbered(paths[j]))
    decreases |paths|
  {
    var init := paths[..|paths| - 1];
    if j < |paths| - 1 {
      assert init[j] == paths[j];
      assert forall k :: 0 <= k < j ==> init[k] == paths[k];
      IndexedFirstUnnumbered(init, indexOf, resolve, j);
    } else {
      assert forall k :: 0 <= k < |init| ==> init[k] == paths[k];
      IndexedOkIff(init, indexOf, resolve);
    }
  }

  /** Every file's index is a key of the map. */
  lemma {:induction false} IndexedKeysCover(paths: seq<string>, indexOf: string -> Option<nat>, resolve: string -> string, j: nat)
    requires Indexed(paths, indexOf, resolve).Ok? && j < |paths|
    ensures indexOf(paths[j]).Some? && indexOf(paths[j]).value in Indexed(paths, indexOf, resolve).value
    decreases |paths|
  {
    var init := paths[..|paths| - 1];
    if j < |init| {
      assert init[j] == paths[j];
      IndexedKeysCover(init, indexOf, resolve, j);
    }
  }

  /** Every key of the map is the index of some file. */
  lemma {:induction false} IndexedKeysFromFiles(paths: seq<string>, indexOf: string -> Option<nat>, resolve: string -> string, k: int)
    requires Indexed(paths, indexOf, resolve).Ok? && k in Indexed(paths, indexOf, resolve).value
    ensures exists j :: 0 <= j < |paths| && indexOf(paths[j]) == Some(k)
    decreases |paths|
  {
    var init := paths[..|paths| - 1];
    var last := paths[|paths| - 1];
    if indexOf(last) != Some(k) {
      IndexedKeysFromFiles(init, indexOf, resolve, k);
      var j :| 0 <= j < |init| && indexOf(init[j]) == Some(k);
      assert init[j] == paths[j];
    }
  }

  /** Each index maps to the resolved path of the LAST file carrying it. */
  lemma {:induction false} IndexedLastWins(paths: seq<string>, indexOf: string -> Option<nat>, resolve: string -> string, j: nat)
    requires Indexed(paths, indexOf, resolve).Ok?
    requires j < |paths|
    requires forall j' :: j < j' < |paths| ==> indexOf(paths[j']) != indexOf(paths[j])
    ensures indexOf(paths[j]).Some?
    ensures indexOf(paths[j]).value in Indexed(paths, indexOf, resolve).value
    ensures Indexed(paths, indexOf, resolve).value[indexOf(paths[j]).value] == resolve(paths[j])
    decreases |paths|
  {
    var init := paths[..|paths| - 1];
    if j < |paths| - 1 {
      assert init[j] == paths[j];
      assert forall j' :: j < j' < |init| ==> init[j'] == paths[j'];
      IndexedLastWins(init, indexOf, resolve, j);
    }
  }

  /** The loop of prepare_substack_dir.py that fills `indexed_slices`. */
  method BuildIndex(slices: seq<string>, resolve: string -> string) returns (r: Result<map<int, string>, PrepareError>)
    ensures r == Indexed(slices, SliceIndex, resolve)
  {
    var indexed: map<int, string> := map[];
    for i := 0 to |slices|
      invariant Indexed(slices[..i], SliceIndex, resolve) == Ok(indexed)
    {
      var p := slices[i];
      assert slices[..i + 1][..i] == slices[..i];
      match SliceIndex(p)
      case None =>
        IndexedOkIff(slices[..i], SliceIndex, resolve);
        assert forall k :: 0 <= k < i ==> slices[..i][k] == slices[k];
        IndexedFirstUnnumbered(slices, SliceIndex, resolve, i);
        return Err(Unnumbered(p));
      case Some(index) =>
        indexed := indexed[index := resolve(p)];
    }
    assert slices[..|slices|] == slices;
    return Ok(indexed);
  }

  // ----- Renumbering -----

  /** Number of slices in the half-open range [start, stop): `len(range(start, stop))`. */
  function SliceCount(start: int, stop: int): nat {
    if start < stop then stop - start else 0
  }

  /** `f"{substack_slice_dir}/{new_index:05d}{ext}"` */
  function Dest(sliceDir: string, newIndex: nat, ext: string): string {
    sliceDir + "/" + ZeroPadded(newIndex, 5) + ext
  }

  function SliceAction(copy: bool, src: string, dest: string): Action {
    if copy then CopyFile(src, dest) else Symlink(src, dest)
  }

  /** Action i of a run: slice start+i linked or copied to the i-th destination. */
  function Planned(indexed: map<int, string>, start: int, sliceDir: string, ext: string, copy: bool, i: nat): Action
    requires start + i in indexed
  {
    SliceAction(copy, indexed[start + i], Dest(sliceDir, i, ext))
  }

  /**
    `actions` and `failure` are what the renumbering loop does with the
    index map: action i links or copies slice start+i to the i-th
    destination, and the loop stops at the first slice of the range that
    the map lacks.
  */
  predicate RenumberedAs(indexed: map<int, string>, start: int, stop: int, sliceDir: string, ext: string, copy: bool,
                         actions: seq<Action>, failure: Option<PrepareError>)
  {
    && |actions| <= SliceCount(start, stop)
    && (forall k :: start <= k < start + |actions| ==> k in indexed)
    && (forall i :: 0 <= i < |actions| ==> actions[i] == Planned(indexed, start, sliceDir, ext, copy, i))
    && (failure.None? ==> |actions| == SliceCount(start, stop))
    && (failure.Some? ==>
          |actions| < SliceCount(start, stop) && start + |actions| !in indexed
          && failure == Some(MissingIndex(start + |actions|)))
  }

  /** The renumbering loop of prepare_substack_dir.py. */
  method Renumber(indexed: map<int, string>, start: int, stop: int, sliceDir: string, ext: string, copy: bool)
    returns (actions: seq<Action>, failure: Option<PrepareError>)
    ensures RenumberedAs(indexed, start, stop, sliceDir, ext, copy, actions, failure)
  {
    actions := [];
    var n := SliceCount(start, stop);
    for newIndex := 0 to n
      invariant |actions| == newIndex
      invariant forall k :: start <= k < start + newIndex ==> k in indexed
      invariant forall i :: 0 <= i < newIndex ==> actions[i] == Planned(indexed, start, sliceDir, ext, copy, i)
    {
      var origIndex := start + newIndex;
      if origIndex !in indexed {
        return actions, Some(MissingIndex(origIndex));
      }
      actions := actions + [Planned(indexed, start, sliceDir, ext, copy, newIndex)];
    }
    failure := None;
  }

  /** The renumbering outcome is determined by its inputs. */
  lemma RenumberedUnique(indexed: map<int, string>, start: int, stop: int, sliceDir: string, ext: string, copy: bool,
                         actions: seq<Action>, failure: Option<PrepareError>,
                         actions': seq<Action>, failure': Option<PrepareError>)
    requires RenumberedAs(indexed, start, stop, sliceDir, ext, copy, actions, failure)
    requires RenumberedAs(indexed, start, stop, sliceDir, ext, copy, actions', failure')
    ensures actions == actions' && failure == failure'
  {
  }

  /** The run completes exactly when every slice of [start, stop) is in the map. */
  lemma RenumberedCompleteIff(indexed: map<int, string>, start: int, stop: int, sliceDir: string, ext: string, copy: bool,
                              actions: seq<Action>, failure: Option<PrepareError>)
    requires RenumberedAs(indexed, start, stop, sliceDir, ext, copy, actions, failure)
    ensures failure.None? <==> forall k :: start <= k < stop ==> k in indexed
  {
  }

  /** Copy mode and link mode visit the same slices in the same order and write the same destinations. */
  lemma RenumberedModesAgree(indexed: map<int, string>, start: int, stop: int, sliceDir: string, ext: string,
                             copies: seq<Action>, copyFailure: Option<PrepareError>,
                             links: seq<Action>, linkFailure: Option<PrepareError>)
    requires RenumberedAs(indexed, start, stop, sliceDir, ext, true, copies, copyFailure)
    requires RenumberedAs(indexed, start, stop, sliceDir, ext, false, links, linkFailure)
    ensures |copies| == |links| && copyFailure == linkFailure
    ensures forall i :: 0 <= i < |copies| ==>
      copies[i].CopyFile? && links[i].Symlink? && copies[i].src == links[i].src && copies[i].dest == links[i].dest
  {
  }

  /** Text framed by the same prefix and suffix on both sides, with equal totals, is the same text. */
  lemma CancelFrame(x: string, a: string, b: string, y: string)
    requires x + a + y == x + b + y
    ensures a == b
  {
    assert |a| == |b|;
    assert a == (x + a + y)[|x|..|x| + |a|];
    assert b == (x + b + y)[|x|..|x| + |b|];
  }

  /** Distinct new indices give distinct destinations. */
  lemma DestInjective(sliceDir: string, ext: string, i: nat, j: nat)
    requires Dest(sliceDir, i, ext) == Dest(sliceDir, j, ext)
    ensures i == j
  {
    CancelFrame(sliceDir + "/", ZeroPadded(i, 5), ZeroPadded(j, 5), ext);
    ZeroPaddedInjective(i, j, 5);
  }

  /** No two actions of a run write the same destination. */
  lemma RenumberedDestsDistinct(indexed: map<int, string>, start: int, stop: int, sliceDir: string, ext: string, copy: bool,
                                actions: seq<Action>, failure: Option<PrepareError>)
    requires RenumberedAs(indexed, start, stop, sliceDir, ext, copy, actions, failure)
    ensures forall i, j :: 0 <= i < |actions| && 0 <= j < |actions| && i != j ==> actions[i].dest != actions[j].dest
  {
    forall i, j | 0 <= i < |actions| && 0 <= j < |actions| && actions[i].dest == actions[j].dest
      ensures i == j
    {
      DestInjective(sliceDir, ext, i, j);
    }
  }

  /** A zero-padded index is a non-empty run of digits, so it holds neither '/' nor '.'. */
  lemma PaddedIndexIsStem(n: nat)
    ensures var pad := ZeroPadded(n, 5);
      1 <= |pad| && AllDigits(pad) && DigitsValue(pad) == n && !AllDots(pad) && '/' !in pad && '.' !in pad
  {
    var pad := ZeroPadded(n, 5);
    ZeroPaddedNatural(n, 5);
    assert pad[0] != '.';
    forall k | 0 <= k < |pad| ensures pad[k] != '/' && pad[k] != '.' {
      assert IsDigit(pad[k]);
    }
  }

  /**
    A renumbered file is itself a slice file, and indexing it the same way
    gives back its new index: the substack's input_slices directory holds
    slices 0, 1, 2, ...
  */
  lemma DestReindexes(sliceDir: string, ext: string, newIndex: nat)
    requires ext == ".png" || ext == ".tif"
    ensures IsSliceFile(Dest(sliceDir, newIndex, ext))
    ensures SliceIndex(Dest(sliceDir, newIndex, ext)) == Some(newIndex)
  {
    var pad := ZeroPadded(newIndex, 5);
    PaddedIndexIsStem(newIndex);
    ExtOfChild(sliceDir, pad, ext);
    var b := pad + ext;
    assert b[0..|pad|] == pad;
    FirstDigitRunIs(b, 0, |pad|);
  }

  /** Every file a run writes is a slice file whose index is its position in the run. */
  lemma RenumberedReindexes(indexed: map<int, string>, start: int, stop: int, sliceDir: string, ext: string, copy: bool,
                            actions: seq<Action>, failure: Option<PrepareError>)
    requires ext == ".png" || ext == ".tif"
    requires RenumberedAs(indexed, start, stop, sliceDir, ext, copy, actions, failure)
    ensures forall i :: 0 <= i < |actions| ==>
      IsSliceFile(actions[i].dest) && SliceIndex(actions[i].dest) == Some(i)
  {
    forall i | 0 <= i < |actions|
      ensures IsSliceFile(actions[i].dest) && SliceIndex(actions[i].dest) == Some(i)
    {
      DestReindexes(sliceDir, ext, i);
    }
  }

  // ----- The whole run -----

  /**
    `main()` of prepare_substack_dir.py once the arguments are parsed. The
    cookiecutter rendering, the directory creation, the JSON dump and the
    permission change happen between the template checks and the listing;
    `setupSucceeds` says whether all of them complete without raising (the
    rendering refuses an output directory that already exists, and makedirs
    one that exists).
  */
  method Prepare(args: Args, cookiecutterExists: bool, templateExists: bool, setupSucceeds: bool,
                 resolve: string -> string, listDir: string -> seq<string>)
    returns (out: Outcome)
    ensures !cookiecutterExists ==> out == Outcome(None, [], Some(MissingCookiecutterDir))
    ensures cookiecutterExists && !templateExists ==> out == Outcome(None, [], Some(MissingTemplate))
    ensures cookiecutterExists && templateExists && !setupSucceeds ==>
      out == Outcome(None, [], Some(SetupFailed(MakeParams(args, resolve).substackBaseDir)))
    ensures cookiecutterExists && templateExists && setupSucceeds ==> out.params == Some(MakeParams(args, resolve))
    ensures cookiecutterExists && templateExists && setupSucceeds ==>
      var kept := FilterSlices(listDir(InputSliceDir(args)));
      if kept == [] then out.actions == [] && out.error == Some(NoSliceFiles)
      else match Indexed(kept, SliceIndex, resolve)
        case Err(e) => out.actions == [] && out.error == Some(e)
        case Ok(indexed) =>
          RenumberedAs(indexed, args.startSlice, args.stopSlice, MakeParams(args, resolve).substackSliceDir,
                       Ext(kept[0]), args.copyInput, out.actions, out.error)
    ensures forall i :: 0 <= i < |out.actions| ==>
      IsSliceFile(out.actions[i].dest) && SliceIndex(out.actions[i].dest) == Some(i)
  {
    if !cookiecutterExists {
      return Outcome(None, [], Some(MissingCookiecutterDir));
    }
    if !templateExists {
      return Outcome(None, [], Some(MissingTemplate));
    }
    var params := MakeParams(args, resolve);
    if !setupSucceeds {
      return Outcome(None, [], Some(SetupFailed(params.substackBaseDir)));
    }
    var kept := FilterSlices(listDir(InputSliceDir(args)));
    if kept == [] {
      return Outcome(Some(params), [], Some(NoSliceFiles));
    }
    var ext := Ext(kept[0]);
    assert kept[0] in kept;
    var indexed := BuildIndex(kept, resolve);
    if indexed.Err? {
      return Outcome(Some(params), [], Some(indexed.error));
    }
    var actions, failure := Renumber(indexed.value, args.startSlice, args.stopSlice, params.substackSliceDir,
                                     ext, args.copyInput);
    RenumberedReindexes(indexed.value, args.startSlice, args.stopSlice, params.substackSliceDir, ext,
                        args.copyInput, actions, failure);
    out := Outcome(Some(params), actions, failure);
  }
}
