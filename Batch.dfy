/** The batch resizer: the table of standard screen dimensions, the
    first-match classifier, the scan that splits a walked folder into files to
    resize and files to skip, and the apply step that counts successes and
    collects per-file errors. The file system and the image library are given
    as per-file outcomes. */
module BatchResizer {
  import opened Common

  datatype Dim = Dim(width: int, height: int)

  /** The target sizes, portrait and landscape, in the order they are tried. */
  const StandardDimensions: seq<Dim> := [
    Dim(1320, 2868), Dim(2868, 1320),
    Dim(1290, 2796), Dim(2796, 1290),
    Dim(1242, 2688), Dim(2688, 1242),
    Dim(1284, 2778), Dim(2778, 1284)
  ]

  /** Pixels a measured axis may differ from a target axis. */
  const DimensionTolerance := 100

  predicate CloseTo(width: int, height: int, d: Dim)
  {
    Abs(width - d.width) <= DimensionTolerance && Abs(height - d.height) <= DimensionTolerance
  }

  /** Entry i of the table is the first one within tolerance of the size. */
  predicate IsFirstMatch(table: seq<Dim>, width: int, height: int, i: int)
  {
    && 0 <= i < |table|
    && CloseTo(width, height, table[i])
    && forall j :: 0 <= j < i ==> !CloseTo(width, height, table[j])
  }

  /** The index of the first entry from k on that is within tolerance, or
      |table| when there is none. */
  function FirstMatchFrom(table: seq<Dim>, width: int, height: int, k: nat): (i: nat)
    requires k <= |table|
    ensures k <= i <= |table|
    ensures i < |table| ==> CloseTo(width, height, table[i])
    ensures forall j :: k <= j < i ==> !CloseTo(width, height, table[j])
    decreases |table| - k
  {
    if k == |table| then k
    else if CloseTo(width, height, table[k]) then k
    else FirstMatchFrom(table, width, height, k + 1)
  }

  /** The target for a measured size: the first table entry, in declared
      order, within tolerance on both axes; None exactly when no entry is. */
  function Classify(width: int, height: int): (r: Option<Dim>)
    ensures r.Some? ==> r.value in StandardDimensions && CloseTo(width, height, r.value)
    ensures r.Some? ==> exists i :: IsFirstMatch(StandardDimensions, width, height, i) && StandardDimensions[i] == r.value
    ensures r.None? <==> forall i :: 0 <= i < |StandardDimensions| ==> !CloseTo(width, height, StandardDimensions[i])
  {
    var i := FirstMatchFrom(StandardDimensions, width, height, 0);
    if i < |StandardDimensions| then
      assert IsFirstMatch(StandardDimensions, width, height, i);
      Some(StandardDimensions[i])
    else None
  }

  /** Whenever entry i is the first entry within tolerance, it is the answer. */
  lemma ClassifyFindsFirstMatch(width: int, height: int, i: int)
    requires IsFirstMatch(StandardDimensions, width, height, i)
    ensures Classify(width, height) == Some(StandardDimensions[i])
  {
    var r := Classify(width, height);
    var j :| IsFirstMatch(StandardDimensions, width, height, j) && StandardDimensions[j] == r.value;
    assert j == i;
  }

  /** First match wins: the exact sizes 1290x2796 and 1284x2778 are taken to
      1320x2868, the first entry. */
  lemma FirstEntryShadowsLaterOnes()
    ensures Classify(1290, 2796) == Some(Dim(1320, 2868))
    ensures Classify(1284, 2778) == Some(Dim(1320, 2868))
  {
    ClassifyFindsFirstMatch(1290, 2796, 0);
    ClassifyFindsFirstMatch(1284, 2778, 0);
  }

  /** 1242x2688 is more than 100 pixels from every earlier entry on some axis,
      so it keeps its own size. */
  lemma ExactSizeKept()
    ensures Classify(1242, 2688) == Some(Dim(1242, 2688))
  {
    assert !CloseTo(1242, 2688, StandardDimensions[0]) && !CloseTo(1242, 2688, StandardDimensions[1]);
    assert !CloseTo(1242, 2688, StandardDimensions[2]) && !CloseTo(1242, 2688, StandardDimensions[3]);
    ClassifyFindsFirstMatch(1242, 2688, 4);
  }

  /** A size far from every entry has no target. */
  lemma FarSizeUnmatched()
    ensures Classify(500, 500) == None
  {
    forall d | d in StandardDimensions
      ensures d.width >= 1242
    {
    }
  }

  // ---------------------------------------------------------------------
  // File names

  function LowerChar(c: char): char
  {
    if 'A' <= c <= 'Z' then (c as int + 32) as char else c
  }

  /** ASCII lower-casing, character by character. */
  function Lower(s: string): (r: string)
    ensures |r| == |s|
    ensures forall i :: 0 <= i < |s| ==> r[i] == LowerChar(s[i])
  {
    seq(|s|, i requires 0 <= i < |s| => LowerChar(s[i]))
  }

  /** Lower-casing leaves no upper-case ASCII letter, so doing it twice is
      doing it once, and a name without upper-case letters is kept as it is. */
  lemma LowerFoldsCase(s: string)
    ensures forall i :: 0 <= i < |s| ==> !('A' <= Lower(s)[i] <= 'Z')
    ensures Lower(Lower(s)) == Lower(s)
    ensures (forall i :: 0 <= i < |s| ==> !('A' <= s[i] <= 'Z')) ==> Lower(s) == s
  {
  }

  predicate EndsWith(s: string, suffix: string)
  {
    |suffix| <= |s| && s[|s| - |suffix|..] == suffix
  }

  /** The scan's extension test: the lower-cased name ends in one of the
      allowed extensions. */
  predicate IsImageName(name: string)
  {
    var l := Lower(name);
    EndsWith(l, ".jpg") || EndsWith(l, ".jpeg") || EndsWith(l, ".png")
  }

  /** The test ignores case: a name and its lower-cased form get the same answer. */
  lemma ImageNameIgnoresCase(name: string)
    ensures IsImageName(name) == IsImageName(Lower(name))
  {
    assert Lower(Lower(name)) == Lower(name);
  }

  lemma ImageNameExamples()
    ensures IsImageName("IMG_0001.JPG") && IsImageName("shot.Jpeg") && IsImageName(".png")
    ensures !IsImageName("notes.txt") && !IsImageName("jpg") && !IsImageName("photo.jpg.bak")
  {
    assert Lower("IMG_0001.JPG")[8..] == ".jpg";
    assert Lower("shot.Jpeg")[4..] == ".jpeg";
    assert Lower(".png") == ".png";
    assert Lower("notes.txt")[5..] == ".txt";
    assert Lower("notes.txt")[4..] == "s.txt";
    assert Lower("photo.jpg.bak")[9..] == ".bak";
    assert Lower("photo.jpg.bak")[8..] == "g.bak";
  }

  /** POSIX path joining, as the walk builds each file's path. */
  function Join(dir: string, name: string): string
  {
    if |name| > 0 && name[0] == '/' then name
    else if dir == "" || dir[|dir| - 1] == '/' then dir + name
    else dir + "/" + name
  }

  // ---------------------------------------------------------------------
  // The scan

  /** What opening a file with the image library yields: its size, or the
      message of the exception it raised. */
  datatype Probe = Opened(size: Dim) | Failed(message: string)

  datatype WalkFile = WalkFile(name: string, probe: Probe)

  /** One directory as the walk reports it: its path and its files. */
  datatype WalkDir = WalkDir(root: string, files: seq<WalkFile>)

  /** A file visited by the scan, with its joined path. */
  datatype Visit = Visit(path: string, name: string, probe: Probe)

  /** Why a file is skipped: "Not an image", "Unreadable: <message>", or a
      readable size that matched no target (shown as the size itself). */
  datatype SkipReason = NotAnImage | Unreadable(message: string) | NoMatch(size: Dim)

  datatype Planned = Planned(path: string, size: Dim, target: Dim)
  datatype Skipped = Skipped(path: string, reason: SkipReason)
  datatype Decision = Resize(planned: Planned) | Skip(skipped: Skipped)
  {
    /** What the verdict appends to the list of files to resize. */
    function ResizePart(): seq<Planned>
    {
      if Resize? then [planned] else []
    }

    /** What the verdict appends to the list of files to skip. */
    function SkipPart(): seq<Skipped>
    {
      if Skip? then [skipped] else []
    }
  }

  /** The scan's verdict on one file. */
  function Decide(v: Visit): Decision
  {
    if !IsImageName(v.name) then Skip(Skipped(v.path, NotAnImage))
    else match v.probe
      case Failed(msg) => Skip(Skipped(v.path, Unreadable(msg)))
      case Opened(size) =>
        match Classify(size.width, size.height)
        case Some(target) => Resize(Planned(v.path, size, target))
        case None => Skip(Skipped(v.path, NoMatch(size)))
  }

  function DirVisits(d: WalkDir): (vs: seq<Visit>)
    ensures |vs| == |d.files|
  {
    seq(|d.files|, k requires 0 <= k < |d.files| =>
      Visit(Join(d.root, d.files[k].name), d.files[k].name, d.files[k].probe))
  }

  /** Every file of the walk, directory by directory, in the walk's order. */
  function Visits(walk: seq<WalkDir>): seq<Visit>
  {
    if walk == [] then [] else Visits(walk[..|walk| - 1]) + DirVisits(walk[|walk| - 1])
  }

  /** The scan's verdicts on a run of files, in the same order. */
  function Decisions(vs: seq<Visit>): (ds: seq<Decision>)
    ensures |ds| == |vs|
    ensures forall i :: 0 <= i < |vs| ==> ds[i] == Decide(vs[i])
  {
    seq(|vs|, i requires 0 <= i < |vs| => Decide(vs[i]))
  }

  lemma DecisionsSnoc(vs: seq<Visit>, v: Visit)
    ensures Decisions(vs + [v]) == Decisions(vs) + [Decide(v)]
  {
  }

  /** The files to resize, in the order of the verdicts. */
  function ResizeList(ds: seq<Decision>): seq<Planned>
  {
    if ds == [] then []
    else ResizeList(ds[..|ds| - 1]) + ds[|ds| - 1].ResizePart()
  }

  /** The files to skip, with their reasons, in the order of the verdicts. */
  function SkipList(ds: seq<Decision>): seq<Skipped>
  {
    if ds == [] then []
    else SkipList(ds[..|ds| - 1]) + ds[|ds| - 1].SkipPart()
  }

  lemma ResizeListSnoc(ds: seq<Decision>, d: Decision)
    ensures ResizeList(ds + [d]) == ResizeList(ds) + d.ResizePart()
  {
    assert (ds + [d])[..|ds|] == ds;
  }

  lemma SkipListSnoc(ds: seq<Decision>, d: Decision)
    ensures SkipList(ds + [d]) == SkipList(ds) + d.SkipPart()
  {
    assert (ds + [d])[..|ds|] == ds;
  }

  lemma ListsSnoc(ds: seq<Decision>, d: Decision)
    ensures ResizeList(ds + [d]) == ResizeList(ds) + d.ResizePart()
    ensures SkipList(ds + [d]) == SkipList(ds) + d.SkipPart()
  {
    ResizeListSnoc(ds, d);
    SkipListSnoc(ds, d);
  }

  /** Every visited file lands in exactly one of the two lists. */
  lemma {:induction false} PartitionCount(ds: seq<Decision>)
    ensures |ResizeList(ds)| + |SkipList(ds)| == |ds|
  {
    if ds != [] {
      PartitionCount(ds[..|ds| - 1]);
    }
  }

  /** Scanning two runs of files one after the other gives the concatenated
      list of files to resize: the list keeps the visiting order. */
  lemma {:induction false} ResizeListAppend(ds: seq<Decision>, es: seq<Decision>)
    ensures ResizeList(ds + es) == ResizeList(ds) + ResizeList(es)
  {
    if es == [] {
      assert ds + es == ds;
    } else {
      var init := es[..|es| - 1];
      var last := es[|es| - 1];
      assert es == init + [last];
      assert ds + es == (ds + init) + [last];
      ResizeListAppend(ds, init);
      ResizeListSnoc(ds + init, last);
      ResizeListSnoc(init, last);
    }
  }

  /** The same for the list of files to skip. */
  lemma {:induction false} SkipListAppend(ds: seq<Decision>, es: seq<Decision>)
    ensures SkipList(ds + es) == SkipList(ds) + SkipList(es)
  {
    if es == [] {
      assert ds + es == ds;
    } else {
      var init := es[..|es| - 1];
      var last := es[|es| - 1];
      assert es == init + [last];
      assert ds + es == (ds + init) + [last];
      SkipListAppend(ds, init);
      SkipListSnoc(ds + init, last);
      SkipListSnoc(init, last);
    }
  }

  /** Every entry to resize comes from a visited image file that opened, and
      its target is the classifier's non-empty answer for its size, a table
      entry within tolerance. */
  lemma {:induction false} ResizeListSound(vs: seq<Visit>)
    ensures forall p :: p in ResizeList(Decisions(vs)) ==>
      && Classify(p.size.width, p.size.height) == Some(p.target)
      && p.target in StandardDimensions
      && CloseTo(p.size.width, p.size.height, p.target)
      && exists v :: v in vs && v.path == p.path && IsImageName(v.name) && v.probe == Opened(p.size)
  {
    if vs != [] {
      var init := vs[..|vs| - 1];
      var last := vs[|vs| - 1];
      assert vs == init + [last];
      DecisionsSnoc(init, last);
      ListsSnoc(Decisions(init), Decide(last));
      ResizeListSound(init);
      forall p | p in ResizeList(Decisions(vs))
        ensures Classify(p.size.width, p.size.height) == Some(p.target)
        ensures exists v :: v in vs && v.path == p.path && IsImageName(v.name) && v.probe == Opened(p.size)
      {
        if p in ResizeList(Decisions(init)) {
          var v :| v in init && v.path == p.path && IsImageName(v.name) && v.probe == Opened(p.size);
          assert v in vs;
        } else {
          assert p == Decide(last).planned;
          assert last in vs;
        }
      }
    }
  }

  /** The reason recorded for a skipped file is the one its visit shows: not
      an image by name, an image name that failed to open with that message,
      or an image that opened with a size the classifier has no target for. */
  predicate SkipExplained(v: Visit, s: Skipped)
  {
    && v.path == s.path
    && match s.reason
       case NotAnImage => !IsImageName(v.name)
       case Unreadable(msg) => IsImageName(v.name) && v.probe == Failed(msg)
       case NoMatch(size) =>
         IsImageName(v.name) && v.probe == Opened(size) && Classify(size.width, size.height) == None
  }

  /** Every skipped entry comes from a visited file whose visit explains it. */
  lemma {:induction false} SkipListSound(vs: seq<Visit>)
    ensures forall s :: s in SkipList(Decisions(vs)) ==> exists v :: v in vs && SkipExplained(v, s)
  {
    if vs != [] {
      var init := vs[..|vs| - 1];
      var last := vs[|vs| - 1];
      assert vs == init + [last];
      DecisionsSnoc(init, last);
      ListsSnoc(Decisions(init), Decide(last));
      SkipListSound(init);
      forall s | s in SkipList(Decisions(vs))
        ensures exists v :: v in vs && SkipExplained(v, s)
      {
        if s in SkipList(Decisions(init)) {
          var v :| v in init && SkipExplained(v, s);
          assert v in vs;
        } else {
          assert s == Decide(last).skipped;
          assert SkipExplained(last, s);
          assert last in vs;
        }
      }
    }
  }

  /** The verdict on a file appears in the list it names. */
  predicate Listed(ds: seq<Decision>, d: Decision)
  {
    && (d.Resize? ==> d.planned in ResizeList(ds))
    && (d.Skip? ==> d.skipped in SkipList(ds))
  }

  /** No visited file is lost: each one's verdict is in the list it names. */
  lemma {:induction false} EveryVisitListed(vs: seq<Visit>)
    ensures forall v :: v in vs ==> Listed(Decisions(vs), Decide(v))
  {
    if vs != [] {
      var init := vs[..|vs| - 1];
      var last := vs[|vs| - 1];
      assert vs == init + [last];
      DecisionsSnoc(init, last);
      ListsSnoc(Decisions(init), Decide(last));
      EveryVisitListed(init);
      forall v | v in vs
        ensures Listed(Decisions(vs), Decide(v))
      {
        if v in init {
          assert Listed(Decisions(init), Decide(v));
        } else {
          assert v == last;
        }
      }
    }
  }

  /** Scanning one more file appends its verdict to one of the lists. */
  lemma ScanStep(done: seq<Visit>, vs: seq<Visit>, j: nat)
    requires j < |vs|
    ensures ResizeList(Decisions(done + vs[..j + 1])) == ResizeList(Decisions(done + vs[..j])) + Decide(vs[j]).ResizePart()
    ensures SkipList(Decisions(done + vs[..j + 1])) == SkipList(Decisions(done + vs[..j])) + Decide(vs[j]).SkipPart()
  {
    assert done + vs[..j + 1] == (done + vs[..j]) + [vs[j]];
    DecisionsSnoc(done + vs[..j], vs[j]);
    ListsSnoc(Decisions(done + vs[..j]), Decide(vs[j]));
  }

  /** The scan: walk every directory and every file in it, in order, and
      append each file to the list its verdict names. */
  method PreviewFolder(walk: seq<WalkDir>) returns (toResize: seq<Planned>, toSkip: seq<Skipped>)
    ensures toResize == ResizeList(Decisions(Visits(walk)))
    ensures toSkip == SkipList(Decisions(Visits(walk)))
  {
    toResize, toSkip := [], [];
    for i := 0 to |walk|
      invariant toResize == ResizeList(Decisions(Visits(walk[..i])))
      invariant toSkip == SkipList(Decisions(Visits(walk[..i])))
    {
      var dir := walk[i];
      ghost var done := Visits(walk[..i]);
      assert done + DirVisits(dir)[..0] == done;
      for j := 0 to |dir.files|
        invariant toResize == ResizeList(Decisions(done + DirVisits(dir)[..j]))
        invariant toSkip == SkipList(Decisions(done + DirVisits(dir)[..j]))
      {
        var file := dir.files[j];
        var path := Join(dir.root, file.name);
        ghost var v := Visit(path, file.name, file.probe);
        assert DirVisits(dir)[j] == v;
        ScanStep(done, DirVisits(dir), j);
        if IsImageName(file.name) {
          match file.probe
          case Opened(size) =>
            var target := Classify(size.width, size.height);
            if target.Some? {
              toResize := toResize + [Planned(path, size, target.value)];
            } else {
              toSkip := toSkip + [Skipped(path, NoMatch(size))];
            }
          case Failed(msg) =>
            toSkip := toSkip + [Skipped(path, Unreadable(msg))];
        } else {
          toSkip := toSkip + [Skipped(path, NotAnImage)];
        }
      }
      assert walk[..i + 1][..i] == walk[..i];
      assert DirVisits(dir)[..|dir.files|] == DirVisits(dir);
    }
    assert walk[..|walk|] == walk;
  }

  /** The walk of the example below: one folder with a matching PNG, a JPEG
      matching no target, and a corrupt JPEG. */
  function ExampleWalk(): seq<WalkDir>
  {
    [WalkDir("/pics", [
      WalkFile("a.png", Opened(Dim(1242, 2688))),
      WalkFile("b.jpg", Opened(Dim(500, 500))),
      WalkFile("c.jpg", Failed("cannot identify image file"))])]
  }

  lemma ExampleVisits()
    ensures Visits(ExampleWalk()) == [
      Visit("/pics/a.png", "a.png", Opened(Dim(1242, 2688))),
      Visit("/pics/b.jpg", "b.jpg", Opened(Dim(500, 500))),
      Visit("/pics/c.jpg", "c.jpg", Failed("cannot identify image file"))]
  {
    var walk := ExampleWalk();
    assert walk[..0] == [];
    assert Join("/pics", "a.png") == "/pics/a.png";
    assert Join("/pics", "b.jpg") == "/pics/b.jpg";
    assert Join("/pics", "c.jpg") == "/pics/c.jpg";
  }

  lemma MatchingPngIsResized()
    ensures Decide(Visit("/pics/a.png", "a.png", Opened(Dim(1242, 2688))))
         == Resize(Planned("/pics/a.png", Dim(1242, 2688), Dim(1242, 2688)))
  {
    assert Lower("a.png")[1..] == ".png";
    ExactSizeKept();
  }

  lemma UnmatchedJpegIsSkipped()
    ensures Decide(Visit("/pics/b.jpg", "b.jpg", Opened(Dim(500, 500))))
         == Skip(Skipped("/pics/b.jpg", NoMatch(Dim(500, 500))))
  {
    assert Lower("b.jpg")[1..] == ".jpg";
    FarSizeUnmatched();
  }

  lemma CorruptJpegIsUnreadable()
    ensures Decide(Visit("/pics/c.jpg", "c.jpg", Failed("cannot identify image file")))
         == Skip(Skipped("/pics/c.jpg", Unreadable("cannot identify image file")))
  {
    assert Lower("c.jpg")[1..] == ".jpg";
  }

  lemma DecisionsOfThree(va: Visit, vb: Visit, vc: Visit)
    ensures Decisions([va, vb, vc]) == [Decide(va), Decide(vb), Decide(vc)]
  {
  }

  lemma ExampleDecisions()
    ensures Decisions(Visits(ExampleWalk())) == [
      Resize(Planned("/pics/a.png", Dim(1242, 2688), Dim(1242, 2688))),
      Skip(Skipped("/pics/b.jpg", NoMatch(Dim(500, 500)))),
      Skip(Skipped("/pics/c.jpg", Unreadable("cannot identify image file")))]
  {
    ExampleVisits();
    DecisionsOfThree(
      Visit("/pics/a.png", "a.png", Opened(Dim(1242, 2688))),
      Visit("/pics/b.jpg", "b.jpg", Opened(Dim(500, 500))),
      Visit("/pics/c.jpg", "c.jpg", Failed("cannot identify image file")));
    MatchingPngIsResized();
    UnmatchedJpegIsSkipped();
    CorruptJpegIsUnreadable();
  }

  lemma ResizeListOfResizeSkipSkip(p: Planned, s1: Skipped, s2: Skipped)
    ensures ResizeList([Resize(p), Skip(s1), Skip(s2)]) == [p]
  {
    var da, db, dc := Resize(p), Skip(s1), Skip(s2);
    assert ResizeList([da]) == [p] by { assert [da][..0] == []; }
    assert ResizeList([da, db]) == [p] by { assert [da, db][..1] == [da]; }
    assert [da, db, dc][..2] == [da, db];
  }

  lemma SkipListOfResizeSkipSkip(p: Planned, s1: Skipped, s2: Skipped)
    ensures SkipList([Resize(p), Skip(s1), Skip(s2)]) == [s1, s2]
  {
    var da, db, dc := Resize(p), Skip(s1), Skip(s2);
    assert SkipList([da]) == [] by { assert [da][..0] == []; }
    assert SkipList([da, db]) == [s1] by { assert [da, db][..1] == [da]; }
    assert [da, db, dc][..2] == [da, db];
  }

  /** The scan of ExampleWalk: one file to resize, two to skip, the corrupt
      one as unreadable. */
  lemma ScanExample()
    ensures var ds := Decisions(Visits(ExampleWalk()));
      && ResizeList(ds) == [Planned("/pics/a.png", Dim(1242, 2688), Dim(1242, 2688))]
      && SkipList(ds) == [Skipped("/pics/b.jpg", NoMatch(Dim(500, 500))),
                          Skipped("/pics/c.jpg", Unreadable("cannot identify image file"))]
  {
    ExampleDecisions();
    var p := Planned("/pics/a.png", Dim(1242, 2688), Dim(1242, 2688));
    var s1 := Skipped("/pics/b.jpg", NoMatch(Dim(500, 500)));
    var s2 := Skipped("/pics/c.jpg", Unreadable("cannot identify image file"));
    ResizeListOfResizeSkipSkip(p, s1, s2);
    SkipListOfResizeSkipSkip(p, s1, s2);
  }

  // ---------------------------------------------------------------------
  // The apply step

  /** What resizing and saving one file does: succeed, or raise with a message. */
  datatype ApplyResult = Saved | Raised(message: string)

  function ErrorLine(p: Planned, message: string): string
  {
    p.path + ": " + message
  }

  function ErrorPart(p: Planned, result: ApplyResult): seq<string>
  {
    match result
    case Saved => []
    case Raised(msg) => [ErrorLine(p, msg)]
  }

  /** The number of entries whose resize succeeded. */
  function ResizedCount(list: seq<Planned>, apply: Planned -> ApplyResult): nat
  {
    if list == [] then 0
    else ResizedCount(list[..|list| - 1], apply) + (if apply(list[|list| - 1]).Saved? then 1 else 0)
  }

  /** One "path: message" line per failed entry, in list order. */
  function ErrorLines(list: seq<Planned>, apply: Planned -> ApplyResult): seq<string>
  {
    if list == [] then []
    else ErrorLines(list[..|list| - 1], apply) + ErrorPart(list[|list| - 1], apply(list[|list| - 1]))
  }

  /** Every entry is either counted or reported, never both, never neither. */
  lemma {:induction false} ApplyAccountsForEveryEntry(list: seq<Planned>, apply: Planned -> ApplyResult)
    ensures ResizedCount(list, apply) + |ErrorLines(list, apply)| == |list|
  {
    if list != [] {
      ApplyAccountsForEveryEntry(list[..|list| - 1], apply);
    }
  }

  /** A failure does not stop the batch: the results for a list followed by
      more entries are those for the list, followed by those for the rest. */
  lemma {:induction false} ApplyAppend(xs: seq<Planned>, ys: seq<Planned>, apply: Planned -> ApplyResult)
    ensures ResizedCount(xs + ys, apply) == ResizedCount(xs, apply) + ResizedCount(ys, apply)
    ensures ErrorLines(xs + ys, apply) == ErrorLines(xs, apply) + ErrorLines(ys, apply)
  {
    if ys == [] {
      assert xs + ys == xs;
    } else {
      var init := ys[..|ys| - 1];
      assert (xs + ys)[..|xs + ys| - 1] == xs + init;
      ApplyAppend(xs, init, apply);
    }
  }

  /** The batch has no error lines exactly when every entry was saved. */
  lemma {:induction false} NoErrorsIffAllSaved(list: seq<Planned>, apply: Planned -> ApplyResult)
    ensures ErrorLines(list, apply) == [] <==> forall p :: p in list ==> apply(p).Saved?
  {
    if list != [] {
      var init := list[..|list| - 1];
      var last := list[|list| - 1];
      assert list == init + [last];
      NoErrorsIffAllSaved(init, apply);
      if !apply(last).Saved? {
        assert |ErrorLines(list, apply)| > 0;
      }
    }
  }

  /** Every error line names an entry of the list and the message its
      resize raised. */
  lemma {:induction false} ErrorLinesSound(list: seq<Planned>, apply: Planned -> ApplyResult)
    ensures forall e :: e in ErrorLines(list, apply) ==>
      exists p :: p in list && apply(p).Raised? && e == ErrorLine(p, apply(p).message)
  {
    if list != [] {
      var init := list[..|list| - 1];
      var last := list[|list| - 1];
      assert list == init + [last];
      ErrorLinesSound(init, apply);
      forall e | e in ErrorLines(list, apply)
        ensures exists p :: p in list && apply(p).Raised? && e == ErrorLine(p, apply(p).message)
      {
        if e in ErrorLines(init, apply) {
          var p :| p in init && apply(p).Raised? && e == ErrorLine(p, apply(p).message);
          assert p in list;
        } else {
          assert last in list;
        }
      }
    }
  }

  /** The apply loop: resize each entry to its target and save it over the
      original; count successes and collect one error line per failure. */
  method ProcessFolder(resizeList: seq<Planned>, apply: Planned -> ApplyResult)
    returns (processed: nat, errors: seq<string>)
    ensures processed == ResizedCount(resizeList, apply)
    ensures errors == ErrorLines(resizeList, apply)
    ensures processed + |errors| == |resizeList|
  {
    processed, errors := 0, [];
    for i := 0 to |resizeList|
      invariant processed == ResizedCount(resizeList[..i], apply)
      invariant errors == ErrorLines(resizeList[..i], apply)
    {
      assert resizeList[..i + 1][..i] == resizeList[..i];
      var entry := resizeList[i];
      match apply(entry)
      case Saved =>
        processed := processed + 1;
      case Raised(msg) =>
        errors := errors + [ErrorLine(entry, msg)];
    }
    assert resizeList[..|resizeList|] == resizeList;
    ApplyAccountsForEveryEntry(resizeList, apply);
  }

  /** The closing message: success with the count, or the count, the number of
      errors and at most the first ten error lines. */
  datatype Report = AllResized(count: nat) | WithErrors(count: nat, errorCount: nat, shown: seq<string>)

  const ShownErrorLimit := 10

  function Summarise(processed: nat, errors: seq<string>): (r: Report)
    ensures r.AllResized? <==> errors == []
    ensures r.count == processed
    ensures r.WithErrors? ==>
      && r.errorCount == |errors|
      && |r.shown| == Min(ShownErrorLimit, |errors|)
      && r.shown == errors[..|r.shown|]
  {
    if errors == [] then AllResized(processed)
    else WithErrors(processed, |errors|, errors[..Min(ShownErrorLimit, |errors|)])
  }

  /** The closing message of a batch: success exactly when every entry was
      saved; otherwise the successes and failures add up to the whole list,
      and every one of the at most ten lines shown names a failed entry with
      its message. */
  lemma SummaryReflectsBatch(list: seq<Planned>, apply: Planned -> ApplyResult)
    ensures var r := Summarise(ResizedCount(list, apply), ErrorLines(list, apply));
      && (r.AllResized? <==> forall p :: p in list ==> apply(p).Saved?)
      && r.count == ResizedCount(list, apply)
      && (r.WithErrors? ==>
            && r.count + r.errorCount == |list|
            && 0 < |r.shown| <= ShownErrorLimit
            && forall e :: e in r.shown ==>
                 exists p :: p in list && apply(p).Raised? && e == ErrorLine(p, apply(p).message))
  {
    NoErrorsIffAllSaved(list, apply);
    ApplyAccountsForEveryEntry(list, apply);
    ErrorLinesSound(list, apply);
    var errors := ErrorLines(list, apply);
    var r := Summarise(ResizedCount(list, apply), errors);
    if r.WithErrors? {
      forall e | e in r.shown
        ensures e in errors
      {
        var k :| 0 <= k < |r.shown| && r.shown[k] == e;
        assert errors[k] == e;
      }
    }
  }
}
