/** Choosing paths for the images of an MHTML archive so that no stored image is overwritten. */
module ImagePaths {
  import opened Seqs

  /** `str(n)`. */
  function Decimal(n: nat): string {
    if n < 10 then ["0123456789"[n]] else Decimal(n / 10) + ["0123456789"[n % 10]]
  }

  lemma {:induction false} DecimalInjective(m: nat, n: nat)
    requires Decimal(m) == Decimal(n)
    ensures m == n
  {
    var a, b := Decimal(m), Decimal(n);
    assert a[|a| - 1] == "0123456789"[m % 10];
    assert b[|b| - 1] == "0123456789"[n % 10];
    if m >= 10 && n >= 10 {
      assert a[..|a| - 1] == Decimal(m / 10);
      assert b[..|b| - 1] == Decimal(n / 10);
      DecimalInjective(m / 10, n / 10);
    }
  }

  function LastDot(s: string): (i: int)
    ensures -1 <= i < |s|
    ensures i >= 0 ==> s[i] == '.'
  {
    if s == "" then -1 else if s[|s| - 1] == '.' then |s| - 1 else LastDot(s[..|s| - 1])
  }

  /** `os.path.splitext` on a file name: where the extension begins; leading dots belong to the stem. */
  function ExtStart(name: string): (i: nat)
    ensures i <= |name|
  {
    var dot := LastDot(name);
    if dot > 0 && exists k :: 0 <= k < dot && name[k] != '.' then dot else |name|
  }

  function Stem(name: string): string { name[..ExtStart(name)] }

  function Ext(name: string): string { name[ExtStart(name)..] }

  /** A file name with the extension of the content type when it has none of its own. */
  function FullName(filename: string, ext: string): string {
    if Ext(filename) == "" then filename + ext else filename
  }

  function Candidate(name: string, suffix: nat): string {
    "images/" + Stem(name) + "_" + Decimal(suffix) + Ext(name)
  }

  lemma {:induction false} CandidatesDiffer(name: string, i: nat, j: nat)
    requires Candidate(name, i) == Candidate(name, j)
    ensures i == j
  {
    var head, tail := "images/" + Stem(name) + "_", Ext(name);
    Middle(head, Decimal(i), Decimal(j), tail);
    DecimalInjective(i, j);
  }

  lemma Middle(head: string, a: string, b: string, tail: string)
    requires head + a + tail == head + b + tail
    ensures a == b
  {
    var s, t := head + a + tail, head + b + tail;
    assert |a| == |b|;
    assert s[|head|..|head| + |a|] == a;
    assert t[|head|..|head| + |b|] == b;
  }

  /** An image part: its sanitised file name, empty when it has none, and a generated name. */
  datatype Picture = Picture(filename: string, ext: string, uuid: string, data: string)

  datatype Part = Other | Image(picture: Picture)

  function UuidPath(p: Picture): string {
    "images/" + p.uuid + p.ext
  }

  /** The numbered candidates from 2 up to the given suffix. */
  ghost function Candidates(name: string, suffix: nat): set<string> {
    set k | 2 <= k < suffix :: Candidate(name, k)
  }

  lemma {:induction false} CandidatesCount(name: string, suffix: nat)
    requires suffix >= 2
    ensures |Candidates(name, suffix)| == suffix - 2
  {
    hide Candidate;
    if suffix == 2 {
      assert Candidates(name, 2) == {};
    } else {
      CandidatesCount(name, suffix - 1);
      var last := Candidate(name, suffix - 1);
      assert Candidates(name, suffix) == Candidates(name, suffix - 1) + {last};
      if last in Candidates(name, suffix - 1) {
        var k :| 2 <= k < suffix - 1 && Candidate(name, k) == last;
        CandidatesDiffer(name, k, suffix - 1);
      }
    }
  }

  /** The first unused among the plain path and its numbered variants; a nameless part gets its generated path. */
  ghost predicate Chosen(p: Picture, images: map<string, string>, path: string)
  {
    if p.filename == "" then path == UuidPath(p)
    else
      var name := FullName(p.filename, p.ext);
      if "images/" + name !in images then path == "images/" + name
      else exists suffix: nat ::
        && 2 <= suffix <= |images| + 2
        && path == Candidate(name, suffix)
        && path !in images
        && Candidates(name, suffix) <= images.Keys
  }

  method ImagePathForPart(p: Picture, images: map<string, string>) returns (path: string)
    ensures Chosen(p, images, path)
    ensures p.filename == "" ==> path == UuidPath(p)
    ensures p.filename != "" ==> path !in images
  {
    hide Candidate, FullName;
    if p.filename == "" {
      return UuidPath(p);
    }
    var name := FullName(p.filename, p.ext);
    path := "images/" + name;
    if path !in images {
      return;
    }
    var suffix := 2;
    while true
      invariant suffix >= 2 && Candidates(name, suffix) <= images.Keys
      decreases |images| + 2 - suffix
    {
      CandidatesCount(name, suffix);
      SubsetSize(Candidates(name, suffix), images.Keys);
      assert |images.Keys| == |images|;
      path := Candidate(name, suffix);
      if path !in images {
        return;
      }
      CandidatesCount(name, suffix + 1);
      assert Candidates(name, suffix + 1) <= images.Keys;
      SubsetSize(Candidates(name, suffix + 1), images.Keys);
      suffix := suffix + 1;
    }
  }

  lemma {:induction false} ChosenUnique(p: Picture, images: map<string, string>, a: string, b: string)
    requires Chosen(p, images, a) && Chosen(p, images, b)
    ensures a == b
  {
    hide Candidate, FullName;
    var name := FullName(p.filename, p.ext);
    if p.filename != "" && "images/" + name in images {
      var i: nat :| 2 <= i && a == Candidate(name, i) && a !in images && Candidates(name, i) <= images.Keys;
      var j: nat :| 2 <= j && b == Candidate(name, j) && b !in images && Candidates(name, j) <= images.Keys;
      assert i < j ==> a in Candidates(name, j);
      assert j < i ==> b in Candidates(name, i);
    }
  }

  // ----- what the paths look like

  /** The number a string of digits stands for. */
  function Value(s: string): int {
    if s == "" then 0 else 10 * Value(s[..|s| - 1]) + (s[|s| - 1] as int - '0' as int)
  }

  /** `Decimal` writes digits that stand for the number, without a leading zero. */
  lemma {:induction false} DecimalReads(n: nat)
    ensures Value(Decimal(n)) == n && Decimal(n) != ""
    ensures forall k :: 0 <= k < |Decimal(n)| ==> '0' <= Decimal(n)[k] <= '9'
    ensures n > 0 ==> Decimal(n)[0] != '0'
  {
    var digit := ["0123456789"[n % 10]];
    DigitValue(n % 10);
    if n >= 10 {
      DecimalReads(n / 10);
      assert (Decimal(n / 10) + digit)[..|Decimal(n / 10)|] == Decimal(n / 10);
    } else {
      assert digit[..0] == "";
    }
  }

  lemma DigitValue(d: nat)
    requires d < 10
    ensures "0123456789"[d] as int == '0' as int + d
  {
  }

  ghost predicate AllDots(s: string) {
    forall k :: 0 <= k < |s| ==> s[k] == '.'
  }

  lemma {:induction false} LastDotIs(stem: string, ext: string)
    requires '.' !in ext
    ensures LastDot(stem + "." + ext) == |stem|
    ensures LastDot(ext) == -1
  {
    var s := stem + "." + ext;
    if ext != "" {
      var n := |ext| - 1;
      assert s[..|s| - 1] == stem + "." + ext[..n] && s[|s| - 1] == ext[n];
      assert forall c :: c in ext[..n] ==> c in ext;
      LastDotIs(stem, ext[..n]);
    }
  }

  /** A dot with something other than dots before it, and no dot after it, begins the extension. */
  lemma {:induction false} SplitName(stem: string, ext: string, typeExt: string)
    requires !AllDots(stem) && '.' !in ext
    ensures var name := stem + "." + ext;
      Stem(name) == stem && Ext(name) == "." + ext && FullName(name, typeExt) == name
  {
    var name := stem + "." + ext;
    LastDotIs(stem, ext);
    var k :| 0 <= k < |stem| && stem[k] != '.';
    assert name[k] == stem[k];
    assert name[..|stem|] == stem && name[|stem|..] == "." + ext;
  }

  /** A name with no dot but leading ones has no extension, and gets that of the content type. */
  lemma {:induction false} PlainName(dots: string, rest: string, typeExt: string)
    requires AllDots(dots) && '.' !in rest
    ensures var name := dots + rest;
      Stem(name) == name && Ext(name) == "" && FullName(name, typeExt) == name + typeExt
  {
    var name := dots + rest;
    if dots == "" {
      LastDotIs("", rest);
      assert name == rest;
    } else {
      var n := |dots| - 1;
      assert name == dots[..n] + "." + rest;
      LastDotIs(dots[..n], rest);
      assert forall k :: 0 <= k < n ==> name[k] == dots[k] == '.';
    }
  }

  /** A nameless part gets its generated path; a named one its own name, or that with a number from 2 before the extension. */
  lemma {:induction false} PathShape(p: Picture, images: map<string, string>, path: string, stem: string, ext: string)
    requires Chosen(p, images, path)
    ensures p.filename == "" ==> path == "images/" + p.uuid + p.ext
    ensures p.filename == stem + "." + ext && !AllDots(stem) && '.' !in ext ==>
      if "images/" + p.filename !in images then path == "images/" + p.filename
      else exists n :: n >= 2 && path == "images/" + stem + "_" + Decimal(n) + ("." + ext)
  {
    if p.filename == stem + "." + ext && !AllDots(stem) && '.' !in ext {
      SplitName(stem, ext, p.ext);
    }
    hide FullName, Stem, Ext, Candidates, AllDots;
  }

  // ----- the walk over all parts

  /** The image parts with data, in order. */
  function Pictures(parts: seq<Part>): seq<Picture> {
    if parts == [] then []
    else
      var n := |parts| - 1;
      Pictures(parts[..n]) + (if parts[n].Image? && parts[n].picture.data != "" then [parts[n].picture] else [])
  }

  /** The paths a picture may get, whatever is stored already. */
  ghost predicate MayGet(p: Picture, path: string) {
    if p.filename == "" then path == UuidPath(p)
    else
      var name := FullName(p.filename, p.ext);
      path == "images/" + name || exists k: nat :: path == Candidate(name, k)
  }

  /** Generated names are fresh: no other picture may get the path of a nameless one. */
  ghost predicate FreshIds(pictures: seq<Picture>) {
    forall i, j :: 0 <= i < |pictures| && 0 <= j < |pictures| && i != j && pictures[i].filename == "" ==>
      !MayGet(pictures[j], UuidPath(pictures[i]))
  }

  /** Distinct paths, and under each the data of its picture. */
  ghost predicate StoredAs(pictures: seq<Picture>, paths: seq<string>, images: map<string, string>) {
    && |paths| == |pictures|
    && (forall i, j :: 0 <= i < j < |paths| ==> paths[i] != paths[j])
    && (forall path :: path in images <==> path in paths)
    && (forall i :: 0 <= i < |paths| ==> paths[i] in images && images[paths[i]] == pictures[i].data)
  }

  ghost predicate Entitled(pictures: seq<Picture>, paths: seq<string>) {
    |paths| == |pictures| && forall i :: 0 <= i < |paths| ==> MayGet(pictures[i], paths[i])
  }

  lemma ChosenEntitled(p: Picture, images: map<string, string>, path: string)
    requires Chosen(p, images, path)
    ensures MayGet(p, path)
  {
    hide Candidate, FullName;
  }

  lemma {:induction false} PicturesSnoc(parts: seq<Part>, p: Part)
    ensures Pictures(parts + [p]) ==
      Pictures(parts) + (if p.Image? && p.picture.data != "" then [p.picture] else [])
  {
    assert (parts + [p])[..|parts|] == parts;
  }

  /** A fresh generated path is not among those stored before. */
  lemma {:induction false} FreshUnused(pictures: seq<Picture>, k: nat, paths: seq<string>)
    requires k < |pictures| && FreshIds(pictures) && Entitled(pictures[..k], paths)
    requires pictures[k].filename == ""
    ensures UuidPath(pictures[k]) !in paths
  {
    forall i | 0 <= i < |paths| ensures paths[i] != UuidPath(pictures[k]) {
      assert MayGet(pictures[..k][i], paths[i]);
    }
  }

  lemma {:induction false} StoredSnoc(pictures: seq<Picture>, p: Picture, paths: seq<string>, images: map<string, string>, path: string)
    requires StoredAs(pictures, paths, images) && path !in images
    ensures StoredAs(pictures + [p], paths + [path], images[path := p.data])
  {
    var all, ps, m := paths + [path], pictures + [p], images[path := p.data];
    forall i | 0 <= i < |all| ensures all[i] in m && m[all[i]] == ps[i].data {
      if i < |paths| {
        assert all[i] == paths[i] && paths[i] in images;
      }
    }
    forall q ensures q in m <==> q in all {
      assert all[|paths|] == path;
      if q in paths {
        var i :| 0 <= i < |paths| && paths[i] == q;
        assert all[i] == q;
      }
    }
  }

  lemma StartsEmpty()
    ensures StoredAs([], [], map[]) && Entitled([], []) && Pictures([]) == []
  {
  }

  /** The map after the pictures were stored under these paths, one after the other. */
  function StoredMap(pictures: seq<Picture>, paths: seq<string>): map<string, string>
    requires |paths| == |pictures|
  {
    if pictures == [] then map[] else
      var n := |pictures| - 1;
      StoredMap(pictures[..n], paths[..n])[paths[n] := pictures[n].data]
  }

  /** Every path was chosen in view of the map at its turn. */
  ghost predicate Walked(pictures: seq<Picture>, paths: seq<string>) {
    && |paths| == |pictures|
    && forall k :: 0 <= k < |paths| ==> Chosen(pictures[k], StoredMap(pictures[..k], paths[..k]), paths[k])
  }

  lemma {:induction false} WalkedSnoc(pictures: seq<Picture>, p: Picture, paths: seq<string>, path: string)
    requires Walked(pictures, paths) && Chosen(p, StoredMap(pictures, paths), path)
    ensures Walked(pictures + [p], paths + [path])
    ensures StoredMap(pictures + [p], paths + [path]) == StoredMap(pictures, paths)[path := p.data]
  {
    hide Chosen;
    var ps, all := pictures + [p], paths + [path];
    assert ps[..|pictures|] == pictures && all[..|paths|] == paths;
    forall k | 0 <= k < |all| ensures Chosen(ps[k], StoredMap(ps[..k], all[..k]), all[k]) {
      if k < |paths| {
        assert ps[..k] == pictures[..k] && all[..k] == paths[..k];
      }
    }
  }

  lemma {:induction false} WalkedPrefix(pictures: seq<Picture>, paths: seq<string>)
    requires Walked(pictures, paths) && pictures != []
    ensures var n := |pictures| - 1;
      && Walked(pictures[..n], paths[..n])
      && Chosen(pictures[n], StoredMap(pictures[..n], paths[..n]), paths[n])
  {
    hide Chosen;
    var n := |pictures| - 1;
    forall k | 0 <= k < n
      ensures Chosen(pictures[..n][k], StoredMap(pictures[..n][..k], paths[..n][..k]), paths[..n][k])
    {
      assert pictures[..n][..k] == pictures[..k] && paths[..n][..k] == paths[..k];
    }
  }

  /** The walk over all parts of an archive. */
  method StoreImages(parts: seq<Part>) returns (images: map<string, string>, paths: seq<string>)
    ensures Walked(Pictures(parts), paths)
    ensures images == StoredMap(Pictures(parts), paths)
  {
    hide Chosen, Pictures, Walked, StoredMap;
    images, paths := map[], [];
    NothingStored();
    assert parts[..0] == [];
    for k := 0 to |parts|
      invariant Walked(Pictures(parts[..k]), paths)
      invariant |paths| == |Pictures(parts[..k])| && images == StoredMap(Pictures(parts[..k]), paths)
    {
      ghost var before := Pictures(parts[..k]);
      PicturesSnoc(parts[..k], parts[k]);
      assert parts[..k + 1] == parts[..k] + [parts[k]];
      if parts[k].Image? && parts[k].picture.data != "" {
        var p := parts[k].picture;
        var path := ImagePathForPart(p, images);
        WalkedSnoc(before, p, paths, path);
        images := images[path := p.data];
        paths := paths + [path];
      } else {
        assert Pictures(parts[..k + 1]) == before;
      }
    }
    assert parts[..|parts|] == parts;
  }

  lemma NothingStored()
    ensures Pictures([]) == [] && Walked([], []) && StoredMap([], []) == map[]
  {
  }

  /** No nameless picture meets its generated path already in use. */
  ghost predicate NoneTaken(pictures: seq<Picture>, paths: seq<string>)
    requires |paths| == |pictures|
  {
    forall k :: 0 <= k < |pictures| && pictures[k].filename == "" ==> UuidPath(pictures[k]) !in paths[..k]
  }

  lemma {:induction false} StoredKeys(pictures: seq<Picture>, paths: seq<string>)
    requires |paths| == |pictures|
    ensures StoredMap(pictures, paths).Keys == set q | q in paths
  {
    if pictures != [] {
      var n := |pictures| - 1;
      StoredKeys(pictures[..n], paths[..n]);
      assert (set q | q in paths) == (set q | q in paths[..n]) + {paths[n]};
    }
  }

  lemma ChosenIsNew(p: Picture, images: map<string, string>, path: string)
    requires Chosen(p, images, path)
    ensures path in images ==> p.filename == ""
    ensures p.filename == "" ==> path == UuidPath(p)
  {
    hide Candidate, FullName;
  }

  /** The last step of a walk adds a picture exactly when its path is new. */
  lemma {:induction false} LastStep(pictures: seq<Picture>, paths: seq<string>)
    requires Walked(pictures, paths) && pictures != []
    ensures var n := |pictures| - 1;
      var before := StoredMap(pictures[..n], paths[..n]);
      && Walked(pictures[..n], paths[..n])
      && StoredMap(pictures, paths) == before[paths[n] := pictures[n].data]
      && |StoredMap(pictures, paths)| == (if paths[n] in before then |before| else |before| + 1)
      && (NoneTaken(pictures, paths) <==> NoneTaken(pictures[..n], paths[..n]) && paths[n] !in before)
  {
    assert |paths| == |pictures|;
    hide StoredMap, Chosen, Walked, NoneTaken;
    var n := |pictures| - 1;
    WalkedPrefix(pictures, paths);
    var before := StoredMap(pictures[..n], paths[..n]);
    StoredKeys(pictures[..n], paths[..n]);
    StoredStep(pictures, paths);
    MapGrows(before, paths[n], pictures[n].data);
    ChosenIsNew(pictures[n], before, paths[n]);
    TakenSnoc(pictures, paths);
    assert paths[n] in before.Keys <==> paths[n] in paths[..n];
  }

  lemma {:induction false} WalkCounts(pictures: seq<Picture>, paths: seq<string>)
    requires Walked(pictures, paths)
    ensures |StoredMap(pictures, paths)| <= |pictures|
    ensures |StoredMap(pictures, paths)| == |pictures| <==> NoneTaken(pictures, paths)
  {
    assert |paths| == |pictures|;
    if pictures != [] {
      hide StoredMap, Walked, NoneTaken;
      LastStep(pictures, paths);
      WalkCounts(pictures[..|pictures| - 1], paths[..|pictures| - 1]);
    }
  }

  lemma {:induction false} WalkStores(pictures: seq<Picture>, paths: seq<string>)
    requires Walked(pictures, paths) && NoneTaken(pictures, paths)
    ensures StoredAs(pictures, paths, StoredMap(pictures, paths))
  {
    assert |paths| == |pictures|;
    hide *;
    if pictures == [] {
      StartsEmpty();
      NothingStored();
    } else {
      var n := |pictures| - 1;
      LastStep(pictures, paths);
      WalkStores(pictures[..n], paths[..n]);
      StoredLast(pictures, paths, StoredMap(pictures[..n], paths[..n]));
    }
  }

  lemma {:induction false} StoredLast(pictures: seq<Picture>, paths: seq<string>, before: map<string, string>)
    requires |paths| == |pictures| && pictures != []
    requires var n := |pictures| - 1;
      StoredAs(pictures[..n], paths[..n], before) && paths[n] !in before
    ensures var n := |pictures| - 1;
      StoredAs(pictures, paths, before[paths[n] := pictures[n].data])
  {
    hide StoredAs;
    var n := |pictures| - 1;
    StoredSnoc(pictures[..n], pictures[n], paths[..n], before, paths[n]);
    assert pictures[..n] + [pictures[n]] == pictures;
    assert paths[..n] + [paths[n]] == paths;
  }

  lemma StoredStep(pictures: seq<Picture>, paths: seq<string>)
    requires |paths| == |pictures| && pictures != []
    ensures var n := |pictures| - 1;
      StoredMap(pictures, paths) == StoredMap(pictures[..n], paths[..n])[paths[n] := pictures[n].data]
  {
  }

  lemma MapGrows(m: map<string, string>, key: string, value: string)
    ensures |m[key := value]| == if key in m then |m| else |m| + 1
  {
    assert m[key := value].Keys == m.Keys + {key};
    assert |m[key := value].Keys| == |m[key := value]| && |m.Keys| == |m|;
  }

  lemma {:induction false} TakenSnoc(pictures: seq<Picture>, paths: seq<string>)
    requires |paths| == |pictures| && pictures != []
    ensures var n := |pictures| - 1;
      NoneTaken(pictures, paths) <==>
        NoneTaken(pictures[..n], paths[..n]) && (pictures[n].filename == "" ==> UuidPath(pictures[n]) !in paths[..n])
  {
    var n := |pictures| - 1;
    assert forall k :: 0 <= k < n ==> paths[..n][..k] == paths[..k] && pictures[..n][k] == pictures[k];
  }

  /** The walk keeps every picture, each under a path of its own, exactly when no generated path is taken already. */
  lemma {:induction false} WalkKeepsAllIff(pictures: seq<Picture>, paths: seq<string>)
    requires Walked(pictures, paths)
    ensures StoredAs(pictures, paths, StoredMap(pictures, paths)) <==> NoneTaken(pictures, paths)
    ensures |StoredMap(pictures, paths)| == |pictures| <==> NoneTaken(pictures, paths)
  {
    hide StoredMap, Chosen;
    WalkCounts(pictures, paths);
    if NoneTaken(pictures, paths) {
      WalkStores(pictures, paths);
    }
    if StoredAs(pictures, paths, StoredMap(pictures, paths)) {
      NoPictureLost(pictures, paths, StoredMap(pictures, paths));
    }
  }

  /** With fresh generated names every walk keeps every picture. */
  lemma {:induction false} FreshWalkKeepsAll(pictures: seq<Picture>, paths: seq<string>)
    requires Walked(pictures, paths) && FreshIds(pictures)
    ensures StoredAs(pictures, paths, StoredMap(pictures, paths))
    ensures Entitled(pictures, paths)
  {
    hide StoredMap, Chosen, MayGet, StoredAs;
    forall k | 0 <= k < |paths| ensures MayGet(pictures[k], paths[k]) {
      ChosenEntitled(pictures[k], StoredMap(pictures[..k], paths[..k]), paths[k]);
    }
    forall k | 0 <= k < |pictures| && pictures[k].filename == "" ensures UuidPath(pictures[k]) !in paths[..k] {
      FreshUnused(pictures, k, paths[..k]);
    }
    WalkKeepsAllIff(pictures, paths);
  }

  /** As many images are stored as there are pictures. */
  lemma {:induction false} NoPictureLost(pictures: seq<Picture>, paths: seq<string>, images: map<string, string>)
    requires StoredAs(pictures, paths, images)
    ensures |images| == |pictures|
  {
    DistinctCount(paths);
    assert images.Keys == set p | p in paths;
  }

  lemma {:induction false} DistinctCount(paths: seq<string>)
    requires forall i, j :: 0 <= i < j < |paths| ==> paths[i] != paths[j]
    ensures |set p | p in paths| == |paths|
  {
    if paths != [] {
      var n := |paths| - 1;
      DistinctCount(paths[..n]);
      assert (set p | p in paths) == (set p | p in paths[..n]) + {paths[n]};
    }
  }

  /** Two nameless parts that share a generated name: every walk over the archive ends with a picture lost. */
  lemma {:induction false} SharedIdOverwrites(pictures: seq<Picture>, paths: seq<string>, i: nat, j: nat)
    requires Walked(pictures, paths) && i < j < |pictures|
    requires pictures[i].filename == "" && pictures[j].filename == "" && UuidPath(pictures[i]) == UuidPath(pictures[j])
    ensures |StoredMap(pictures, paths)| < |pictures|
  {
    ChosenIsNew(pictures[i], StoredMap(pictures[..i], paths[..i]), paths[i]);
    hide StoredMap, Chosen;
    assert paths[..j][i] == paths[i];
    assert !NoneTaken(pictures, paths);
    WalkCounts(pictures, paths);
  }
}
