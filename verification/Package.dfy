/** Packaging a set of files: sort by name, pack, write. The archive reads back as the sorted files; which listings give
    the same archive in every order and every engine is settled exactly. */
module Package {
  import opened Octets
  import opened Zip

  /** A file name is a sequence of UTF-16 code units, compared unit by unit. */
  type Name = seq<nat>

  datatype File = File(name: Name, data: Bytes)

  predicate Before(a: Name, b: Name) {
    b != [] && (a == [] || a[0] < b[0] || (a[0] == b[0] && Before(a[1..], b[1..])))
  }

  lemma {:induction false} BeforeTrans(a: Name, b: Name, c: Name)
    requires !Before(b, a) && !Before(c, b)
    ensures !Before(c, a)
  {
    if a != [] && b != [] && c != [] && a[0] == b[0] == c[0] {
      BeforeTrans(a[1..], b[1..], c[1..]);
    }
  }

  lemma {:induction false} BeforeTotal(a: Name, b: Name)
    ensures !(Before(a, b) && Before(b, a))
    ensures !Before(a, b) && !Before(b, a) ==> a == b
  {
    if a != [] && b != [] {
      BeforeTotal(a[1..], b[1..]);
      assert a == [a[0]] + a[1..] && b == [b[0]] + b[1..];
    }
  }

  // ---- sorting by name ----

  predicate Ordered(fs: seq<File>) { forall i, j :: 0 <= i < j < |fs| ==> !Before(fs[j].name, fs[i].name) }

  predicate DistinctNames(fs: seq<File>) { forall i, j :: 0 <= i < j < |fs| ==> fs[i].name != fs[j].name }

  type Sorter = seq<File> -> seq<File>

  /** What the language promises of its sort under the packager's comparison: the files come out rearranged, and by
      name if the names differ. For two files of the same name the comparison contradicts itself, so their place, and
      that of all the others, is up to the engine. */
  ghost predicate Sorts(sort: Sorter) {
    forall fs: seq<File> ::
      multiset(sort(fs)) == multiset(fs) && |sort(fs)| == |fs| && (DistinctNames(fs) ==> Ordered(sort(fs)))
  }

  lemma OrderedTail(fs: seq<File>)
    requires Ordered(fs) && fs != []
    ensures Ordered(fs[1..])
  {
    var r := fs[1..];
    forall i, j | 0 <= i < j < |r|
      ensures !Before(r[j].name, r[i].name)
    {
      assert r[i] == fs[i + 1] && r[j] == fs[j + 1];
    }
  }

  /** A file of an ordered listing is not before its first. */
  lemma FirstLeast(fs: seq<File>, x: File)
    requires Ordered(fs) && x in fs
    ensures !Before(x.name, fs[0].name)
  {
    BeforeTotal(x.name, x.name);
  }

  lemma MultisetTail(fs: seq<File>)
    requires fs != []
    ensures multiset(fs[1..]) == multiset(fs) - multiset{fs[0]}
  {
    assert fs == [fs[0]] + fs[1..];
  }

  /** Files of the same name are the same file. */
  ghost predicate OneFilePerName(fs: seq<File>) { forall f <- fs, g <- fs :: f.name == g.name ==> f == g }

  lemma FirstSame(a: seq<File>, b: seq<File>)
    requires Ordered(a) && Ordered(b) && multiset(a) == multiset(b) && OneFilePerName(a) && a != []
    ensures b != [] && a[0] == b[0]
  {
    assert a[0] in multiset(b);
    assert b[0] in multiset(a);
    FirstLeast(a, b[0]);
    FirstLeast(b, a[0]);
    BeforeTotal(a[0].name, b[0].name);
  }

  lemma OneFileTail(fs: seq<File>)
    requires OneFilePerName(fs) && fs != []
    ensures OneFilePerName(fs[1..])
  {
    forall f <- fs[1..]
      ensures f in fs
    {
      var i :| 0 <= i < |fs[1..]| && fs[1..][i] == f;
      assert fs[i + 1] == f;
    }
  }

  /** There is one way to order files by name if each name belongs to one file. */
  lemma {:induction false} OrderedUnique(a: seq<File>, b: seq<File>)
    requires Ordered(a) && Ordered(b) && multiset(a) == multiset(b) && OneFilePerName(a)
    ensures a == b
  {
    if a == [] {
      assert |multiset(b)| == 0;
    } else {
      FirstSame(a, b);
      OrderedTail(a);
      OrderedTail(b);
      OneFileTail(a);
      MultisetTail(a);
      MultisetTail(b);
      OrderedUnique(a[1..], b[1..]);
      assert a == [a[0]] + a[1..] && b == [b[0]] + b[1..];
    }
  }

  lemma DistinctOneEach(fs: seq<File>)
    requires DistinctNames(fs)
    ensures OneFilePerName(fs)
  {
  }

  lemma {:induction false} DistinctCounts(fs: seq<File>, f: File)
    requires DistinctNames(fs)
    ensures multiset(fs)[f] == if f in fs then 1 else 0
  {
    if fs != [] {
      assert fs == [fs[0]] + fs[1..];
      DistinctCounts(fs[1..], f);
    }
  }

  /** Listings of the same files under distinct names sort alike, in any two engines. */
  lemma SortAgrees(sort: Sorter, sort': Sorter, a: seq<File>, b: seq<File>)
    requires Sorts(sort) && Sorts(sort') && DistinctNames(a) && DistinctNames(b) && forall f: File :: f in a <==> f in b
    ensures sort(a) == sort'(b)
  {
    forall f: File
      ensures multiset(a)[f] == multiset(b)[f]
    {
      DistinctCounts(a, f);
      DistinctCounts(b, f);
    }
    assert multiset(a) == multiset(b);
    DistinctOneEach(a);
    var x := sort(a);
    forall f <- x, g <- x | f.name == g.name
      ensures f == g
    {
      assert f in multiset(a) && g in multiset(a);
    }
    OrderedUnique(x, sort'(b));
  }

  // ---- such a sort exists ----

  /** Put `f` before the first file that does not come before it. */
  function Insert(f: File, fs: seq<File>): (r: seq<File>)
    ensures |r| == |fs| + 1 && multiset(r) == multiset([f] + fs)
  {
    if fs == [] || !Before(fs[0].name, f.name) then [f] + fs
    else
      assert fs == [fs[0]] + fs[1..];
      [fs[0]] + Insert(f, fs[1..])
  }

  function Sort(fs: seq<File>): (r: seq<File>)
    ensures |r| == |fs| && multiset(r) == multiset(fs)
  {
    if fs == [] then []
    else
      assert fs == [fs[0]] + fs[1..];
      Insert(fs[0], Sort(fs[1..]))
  }

  lemma OrderedCons(f: File, fs: seq<File>)
    requires Ordered(fs) && forall x <- fs :: !Before(x.name, f.name)
    ensures Ordered([f] + fs)
  {
    var r := [f] + fs;
    forall i, j | 0 <= i < j < |r|
      ensures !Before(r[j].name, r[i].name)
    {
      assert r[j] == fs[j - 1] && fs[j - 1] in fs;
    }
  }

  lemma {:induction false} InsertOrdered(f: File, fs: seq<File>)
    requires Ordered(fs)
    ensures Ordered(Insert(f, fs))
  {
    if fs == [] {
    } else if Before(fs[0].name, f.name) {
      var rest := Insert(f, fs[1..]);
      OrderedTail(fs);
      InsertOrdered(f, fs[1..]);
      forall x <- rest
        ensures !Before(x.name, fs[0].name)
      {
        assert x in multiset([f] + fs[1..]);
        BeforeTotal(fs[0].name, f.name);
      }
      OrderedCons(fs[0], rest);
    } else {
      forall x <- fs
        ensures !Before(x.name, f.name)
      {
        FirstLeast(fs, x);
        BeforeTrans(f.name, fs[0].name, x.name);
      }
      OrderedCons(f, fs);
    }
  }

  lemma {:induction false} SortOrders(fs: seq<File>)
    ensures Ordered(Sort(fs))
  {
    if fs != [] {
      SortOrders(fs[1..]);
      InsertOrdered(fs[0], Sort(fs[1..]));
    }
  }

  /** An engine that gives up on repeated names and leaves the list as it is. */
  function LazySort(): Sorter { (fs: seq<File>) => if DistinctNames(fs) then Sort(fs) else fs }

  lemma LazySortSorts()
    ensures Sorts(LazySort())
  {
    forall fs: seq<File>
      ensures DistinctNames(fs) ==> Ordered(LazySort()(fs))
    {
      SortOrders(fs);
    }
  }

  // ---- packing and writing ----

  type Deflater = Bytes -> Bytes

  type Encoder = Name -> Bytes

  /** Deflated when that is shorter, stored otherwise. */
  function Pack(deflate: Deflater, utf8: Encoder, f: File): Entry {
    var d := deflate(f.data);
    if |d| < |f.data| then Entry(utf8(f.name), f.data, 8, d) else Entry(utf8(f.name), f.data, 0, f.data)
  }

  function PackAll(deflate: Deflater, utf8: Encoder, fs: seq<File>): (es: seq<Entry>)
    ensures |es| == |fs|
  {
    seq(|fs|, i requires 0 <= i < |fs| => Pack(deflate, utf8, fs[i]))
  }

  /** The archive of a listing that has been put in order; none when a number does not fit its field. */
  function Archived(deflate: Deflater, utf8: Encoder, sorted: seq<File>): Option<Bytes> {
    var es := PackAll(deflate, utf8, sorted);
    if ArchiveFits(es) then Some(Archive(es)) else None
  }

  /** The two records written for entry `k`. */
  predicate Written(es: seq<Entry>, parts: seq<Bytes>, central: seq<Bytes>, k: nat)
    requires k < |es| && k < |parts| && k < |central|
  {
    Fits(es, k) && parts[k] == LocalRecord(es[k]) && central[k] == CentralRecord(es[k], LocalsSize(es[..k]))
  }

  lemma WrittenFits(es: seq<Entry>, parts: seq<Bytes>, central: seq<Bytes>)
    requires |parts| == |central| == |es| && forall k: nat :: k < |es| ==> Written(es, parts, central, k)
    ensures EntriesFit(es)
  {
    forall k: nat | k < |es|
      ensures Fits(es, k)
    {
      assert Written(es, parts, central, k);
    }
  }

  lemma WrittenRecords(es: seq<Entry>, parts: seq<Bytes>, central: seq<Bytes>, k: nat)
    requires k < |parts| == |central| == |es| && EntriesFit(es) && Written(es, parts, central, k)
    ensures parts[k] == LocalRecords(es)[k] && central[k] == CentralRecords(es)[k]
  {
  }

  lemma AllWritten(es: seq<Entry>, parts: seq<Bytes>, central: seq<Bytes>)
    requires |parts| == |central| == |es| && forall k: nat :: k < |es| ==> Written(es, parts, central, k)
    ensures EntriesFit(es) && parts == LocalRecords(es) && central == CentralRecords(es)
  {
    WrittenFits(es, parts, central);
    var ls, cs := LocalRecords(es), CentralRecords(es);
    forall k: nat | k < |es|
      ensures parts[k] == ls[k] && central[k] == cs[k]
    {
      WrittenRecords(es, parts, central, k);
    }
  }

  lemma WrittenStays(es: seq<Entry>, parts: seq<Bytes>, central: seq<Bytes>, l: Bytes, c: Bytes, k: nat)
    requires k < |es| && k < |parts| == |central| && Written(es, parts, central, k)
    ensures Written(es, parts + [l], central + [c], k)
  {
  }

  lemma WrittenNow(es: seq<Entry>, parts: seq<Bytes>, central: seq<Bytes>)
    requires |parts| == |central| < |es| && forall k: nat :: k < |parts| ==> Written(es, parts, central, k)
    requires Fits(es, |parts|)
    ensures var i := |parts|;
            var ps, cs := parts + [LocalRecord(es[i])], central + [CentralRecord(es[i], LocalsSize(es[..i]))];
            forall k: nat :: k <= i ==> Written(es, ps, cs, k)
  {
    var i := |parts|;
    var l, c := LocalRecord(es[i]), CentralRecord(es[i], LocalsSize(es[..i]));
    forall k: nat | k <= i
      ensures Written(es, parts + [l], central + [c], k)
    {
      if k < i {
        WrittenStays(es, parts, central, l, c, k);
      }
    }
  }

  lemma SizesStep(es: seq<Entry>, i: nat)
    requires i < |es|
    ensures LocalsSize(es[..i + 1]) == LocalsSize(es[..i]) + 30 + |es[i].name| + |es[i].body|
    ensures CentralsSize(es[..i + 1]) == CentralsSize(es[..i]) + 46 + |es[i].name|
  {
    assert es[..i + 1][..i] == es[..i];
  }

  /** One turn of the loop: the local and the central record of entry `i`. */
  method AddRecords(ghost es: seq<Entry>, ghost i: nat, e: Entry, off: nat, parts: seq<Bytes>, central: seq<Bytes>)
      returns (ps: seq<Bytes>, cs: seq<Bytes>)
    requires |parts| == |central| == i < |es| && forall k: nat :: k < i ==> Written(es, parts, central, k)
    requires e == es[i] && off == LocalsSize(es[..i]) && HeaderFits(e, off)
    ensures |ps| == |cs| == i + 1 && forall k: nat :: k <= i ==> Written(es, ps, cs, k)
  {
    ps, cs := parts + [LocalRecord(e)], central + [CentralRecord(e, off)];
    WrittenNow(es, parts, central);
  }

  /** After the loop: the end record, and everything joined. */
  method Finish(ghost es: seq<Entry>, parts: seq<Bytes>, central: seq<Bytes>, count: nat, cdLen: nat, off: nat)
      returns (r: Option<Bytes>)
    requires EntriesFit(es) && parts == LocalRecords(es) && central == CentralRecords(es)
    requires count == |es| && cdLen == CentralsSize(es) && off == LocalsSize(es)
    ensures r == if ArchiveFits(es) then Some(Archive(es)) else None
  {
    if count >= Limit(2) || off >= Limit(4) || cdLen >= Limit(4) {
      return None;
    }
    r := Some(Flat(parts) + Flat(central) + EndRecord(count, cdLen, off));
  }

  method WriteArchive(deflate: Deflater, utf8: Encoder, sort: Sorter, files: seq<File>) returns (r: Option<Bytes>)
    requires Sorts(sort)
    ensures r == Archived(deflate, utf8, sort(files))
  {
    var sorted := sort(files);
    ghost var es := PackAll(deflate, utf8, sorted);
    var parts, central, off, cdLen := [], [], 0, 0;
    for i := 0 to |sorted|
      invariant |parts| == |central| == i && off == LocalsSize(es[..i]) && cdLen == CentralsSize(es[..i])
      invariant forall k: nat :: k < i ==> Written(es, parts, central, k)
    {
      var e := Pack(deflate, utf8, sorted[i]);
      if !HeaderFits(e, off) {
        assert !Fits(es, i);
        return None;
      }
      parts, central := AddRecords(es, i, e, off, parts, central);
      SizesStep(es, i);
      off := off + 30 + |e.name| + |e.body|;
      cdLen := cdLen + 46 + |e.name|;
    }
    assert es[..|sorted|] == es;
    AllWritten(es, parts, central);
    r := Finish(es, parts, central, |files|, cdLen, off);
  }

  // ---- what the archive says ----

  ghost predicate Inverts(inflate: Inflater, deflate: Deflater) { forall x: Bytes :: inflate(deflate(x)) == Some(x) }

  function Listing(utf8: Encoder, fs: seq<File>): seq<Member> {
    seq(|fs|, i requires 0 <= i < |fs| => Member(utf8(fs[i].name), fs[i].data, 0, DOS_DATE, UNIX_MODE))
  }

  lemma PackSound(deflate: Deflater, inflate: Inflater, utf8: Encoder, fs: seq<File>)
    requires Inverts(inflate, deflate)
    ensures Members(PackAll(deflate, utf8, fs)) == Listing(utf8, fs)
    ensures forall e <- PackAll(deflate, utf8, fs) :: Sound(inflate, e)
  {
  }

  /** Reading the archive back gives the files in the order they were packed. */
  lemma PackedReadsBack(deflate: Deflater, inflate: Inflater, utf8: Encoder, fs: seq<File>)
    requires Inverts(inflate, deflate) && Archived(deflate, utf8, fs).Some?
    ensures ReadArchive(inflate, Archived(deflate, utf8, fs).value) == Some(Listing(utf8, fs))
  {
    PackSound(deflate, inflate, utf8, fs);
    ArchiveReads(inflate, PackAll(deflate, utf8, fs));
  }

  /** Reading the archive back gives exactly the files, each as often as it was listed, ordered by name if the names
      differ. */
  lemma ReadsBack(deflate: Deflater, inflate: Inflater, utf8: Encoder, sort: Sorter, fs: seq<File>)
    requires Inverts(inflate, deflate) && Sorts(sort) && Archived(deflate, utf8, sort(fs)).Some?
    ensures ReadArchive(inflate, Archived(deflate, utf8, sort(fs)).value) == Some(Listing(utf8, sort(fs)))
    ensures multiset(sort(fs)) == multiset(fs) && (DistinctNames(fs) ==> Ordered(sort(fs)))
  {
    PackedReadsBack(deflate, inflate, utf8, sort(fs));
  }

  /** The encoding tells the names of these files apart. Not every encoding tells all names apart: UTF-8 writes every
      lone surrogate alike. */
  ghost predicate ToldApart(utf8: Encoder, fs: seq<File>) {
    forall f <- fs, g <- fs :: utf8(f.name) == utf8(g.name) ==> f.name == g.name
  }

  /** Listings that look the same once encoded are packed into the same entries. */
  lemma AlikePacked(deflate: Deflater, utf8: Encoder, x: seq<File>, y: seq<File>)
    requires Listing(utf8, x) == Listing(utf8, y)
    ensures PackAll(deflate, utf8, x) == PackAll(deflate, utf8, y)
  {
    assert |x| == |Listing(utf8, x)| == |Listing(utf8, y)| == |y|;
    forall i | 0 <= i < |x|
      ensures Pack(deflate, utf8, x[i]) == Pack(deflate, utf8, y[i])
    {
      assert Listing(utf8, x)[i] == Listing(utf8, y)[i];
    }
  }

  /** Two orders give the same archive exactly when they look the same once encoded. */
  lemma ArchivedAlike(deflate: Deflater, inflate: Inflater, utf8: Encoder, x: seq<File>, y: seq<File>)
    requires Inverts(inflate, deflate) && Archived(deflate, utf8, x).Some?
    ensures Archived(deflate, utf8, x) == Archived(deflate, utf8, y) <==> Listing(utf8, x) == Listing(utf8, y)
  {
    if Listing(utf8, x) == Listing(utf8, y) {
      AlikePacked(deflate, utf8, x, y);
    }
    if Archived(deflate, utf8, x) == Archived(deflate, utf8, y) {
      PackedReadsBack(deflate, inflate, utf8, x);
      PackedReadsBack(deflate, inflate, utf8, y);
    }
  }

  lemma SameMembers(a: seq<File>, b: seq<File>)
    requires multiset(a) == multiset(b)
    ensures forall f: File :: f in a <==> f in b
  {
    forall f: File
      ensures f in a <==> f in b
    {
      assert f in a <==> f in multiset(a);
      assert f in b <==> f in multiset(b);
    }
  }

  lemma ListingDecodes(utf8: Encoder, x: seq<File>, y: seq<File>)
    requires Listing(utf8, x) == Listing(utf8, y) && ToldApart(utf8, x + y)
    ensures x == y
  {
    assert |x| == |Listing(utf8, x)| == |Listing(utf8, y)| == |y|;
    forall i | 0 <= i < |x|
      ensures x[i] == y[i]
    {
      assert Listing(utf8, x)[i] == Listing(utf8, y)[i];
      assert x[i] in x + y && y[i] in x + y;
    }
  }

  /** The engine has no say under distinct names. */
  lemma EngineAgrees(sort: Sorter, a: seq<File>)
    requires Sorts(sort) && DistinctNames(a)
    ensures sort(a) == Sort(a)
  {
    LazySortSorts();
    SortAgrees(sort, LazySort(), a, a);
  }

  lemma ToldApartSorted(utf8: Encoder, a: seq<File>, b: seq<File>, x: seq<File>, y: seq<File>)
    requires ToldApart(utf8, a + b) && multiset(x) == multiset(a) && multiset(y) == multiset(b)
    ensures ToldApart(utf8, x + y)
  {
    SameMembers(x, a);
    SameMembers(y, b);
    forall f <- x + y
      ensures f in a + b
    {
      assert f in x || f in y;
    }
  }

  lemma SameFiles(utf8: Encoder, a: seq<File>, b: seq<File>)
    requires ToldApart(utf8, a + b) && DistinctNames(a) && DistinctNames(b)
    ensures Listing(utf8, Sort(a)) == Listing(utf8, Sort(b)) <==> forall f: File :: f in a <==> f in b
  {
    if Listing(utf8, Sort(a)) == Listing(utf8, Sort(b)) {
      ToldApartSorted(utf8, a, b, Sort(a), Sort(b));
      ListingDecodes(utf8, Sort(a), Sort(b));
      SameMembers(a, b);
    }
    if forall f: File :: f in a <==> f in b {
      LazySortSorts();
      SortAgrees(LazySort(), LazySort(), a, b);
    }
  }

  /** Under distinct names two listings give the same archive, in any two engines, exactly when they look the same once
      sorted and encoded; and if the encoding tells their names apart, exactly when they hold the same files. */
  lemma SameArchive(
    deflate: Deflater, inflate: Inflater, utf8: Encoder, sort: Sorter, sort': Sorter, a: seq<File>, b: seq<File>)
    requires Inverts(inflate, deflate) && Sorts(sort) && Sorts(sort')
    requires DistinctNames(a) && DistinctNames(b) && Archived(deflate, utf8, sort(a)).Some?
    ensures Archived(deflate, utf8, sort(a)) == Archived(deflate, utf8, sort'(b)) <==>
            Listing(utf8, Sort(a)) == Listing(utf8, Sort(b))
    ensures ToldApart(utf8, a + b) ==>
              (Archived(deflate, utf8, sort(a)) == Archived(deflate, utf8, sort'(b)) <==>
               forall f: File :: f in a <==> f in b)
  {
    EngineAgrees(sort, a);
    EngineAgrees(sort', b);
    ArchivedAlike(deflate, inflate, utf8, Sort(a), Sort(b));
    if ToldApart(utf8, a + b) {
      SameFiles(utf8, a, b);
    }
  }

  // ---- whether an archive exists does not depend on the order ----

  lemma {:induction false} SizesWithout(es: seq<Entry>, k: nat, rest: seq<Entry>)
    requires k < |es| && rest == es[..k] + es[k + 1..]
    ensures LocalsSize(es) == LocalsSize(rest) + 30 + |es[k].name| + |es[k].body|
    ensures CentralsSize(es) == CentralsSize(rest) + 46 + |es[k].name|
    decreases |es|
  {
    var n := |es| - 1;
    if k == n {
      assert rest == es[..n];
    } else {
      var init := es[..n];
      assert rest[..n - 1] == init[..k] + init[k + 1..] && rest[n - 1] == es[n];
      SizesWithout(init, k, rest[..n - 1]);
    }
  }

  function Without(fs: seq<File>, k: nat): (r: seq<File>)
    requires k < |fs|
    ensures |r| == |fs| - 1 && multiset(r) == multiset(fs) - multiset{fs[k]}
  {
    assert fs == fs[..k] + [fs[k]] + fs[k + 1..];
    fs[..k] + fs[k + 1..]
  }

  lemma PackedWithout(deflate: Deflater, utf8: Encoder, fs: seq<File>, k: nat)
    requires k < |fs|
    ensures var es, rest, e :=
              PackAll(deflate, utf8, fs), PackAll(deflate, utf8, Without(fs, k)), Pack(deflate, utf8, fs[k]);
            && LocalsSize(es) == LocalsSize(rest) + 30 + |e.name| + |e.body|
            && CentralsSize(es) == CentralsSize(rest) + 46 + |e.name|
  {
    SizesWithout(PackAll(deflate, utf8, fs), k, PackAll(deflate, utf8, Without(fs, k)));
  }

  lemma {:induction false} SizesPermuted(deflate: Deflater, utf8: Encoder, x: seq<File>, y: seq<File>)
    requires multiset(x) == multiset(y)
    ensures LocalsSize(PackAll(deflate, utf8, x)) == LocalsSize(PackAll(deflate, utf8, y))
    ensures CentralsSize(PackAll(deflate, utf8, x)) == CentralsSize(PackAll(deflate, utf8, y))
    decreases |x|
  {
    if x == [] {
      assert |multiset(y)| == 0;
    } else {
      assert x[0] in multiset(y);
      var k :| 0 <= k < |y| && y[k] == x[0];
      PackedWithout(deflate, utf8, x, 0);
      PackedWithout(deflate, utf8, y, k);
      SizesPermuted(deflate, utf8, Without(x, 0), Without(y, k));
    }
  }

  lemma {:induction false} SizesGrow(es: seq<Entry>, i: nat)
    requires i <= |es|
    ensures LocalsSize(es[..i]) <= LocalsSize(es)
    decreases |es|
  {
    if i == |es| {
      assert es[..i] == es;
    } else {
      SizesGrow(es[..|es| - 1], i);
      assert es[..|es| - 1][..i] == es[..i];
    }
  }

  /** An archive exists exactly when every entry fits by itself and the totals fit. */
  lemma FitsExactly(es: seq<Entry>)
    ensures ArchiveFits(es) <==>
            && (forall e <- es :: HeaderFits(e, 0))
            && |es| < Limit(2) && LocalsSize(es) < Limit(4) && CentralsSize(es) < Limit(4)
  {
    if LocalsSize(es) < Limit(4) {
      forall i: nat | i < |es|
        ensures Fits(es, i) <==> HeaderFits(es[i], 0)
      {
        SizesGrow(es, i);
      }
    }
  }

  lemma PackedMember(deflate: Deflater, utf8: Encoder, x: seq<File>, e: Entry)
    ensures e in PackAll(deflate, utf8, x) <==> exists f: File :: f in x && e == Pack(deflate, utf8, f)
  {
    var es := PackAll(deflate, utf8, x);
    forall f <- x
      ensures Pack(deflate, utf8, f) in es
    {
      var i :| 0 <= i < |x| && x[i] == f;
      assert es[i] == Pack(deflate, utf8, f);
    }
  }

  lemma FitsPermuted(deflate: Deflater, utf8: Encoder, x: seq<File>, y: seq<File>)
    requires multiset(x) == multiset(y)
    ensures Archived(deflate, utf8, x).None? <==> Archived(deflate, utf8, y).None?
  {
    var es, es' := PackAll(deflate, utf8, x), PackAll(deflate, utf8, y);
    assert |x| == |multiset(x)| == |multiset(y)| == |y|;
    SizesPermuted(deflate, utf8, x, y);
    SameMembers(x, y);
    forall e: Entry
      ensures e in es <==> e in es'
    {
      PackedMember(deflate, utf8, x, e);
      PackedMember(deflate, utf8, y, e);
    }
    FitsExactly(es);
    FitsExactly(es');
  }

  // ---- reproducible archives ----

  /** Every engine gives every rearrangement of the listing the same archive, or none of them any. */
  ghost predicate Reproducible(deflate: Deflater, utf8: Encoder, a: seq<File>) {
    forall b: seq<File>, sort: Sorter, sort': Sorter ::
      Sorts(sort) && Sorts(sort') && multiset(a) == multiset(b) ==>
        Archived(deflate, utf8, sort(a)) == Archived(deflate, utf8, sort'(b))
  }

  /** All members look the same once encoded. */
  predicate AllAlike(ms: seq<Member>) { forall i, j :: 0 <= i < j < |ms| ==> ms[i] == ms[j] }

  lemma NoneReproducible(deflate: Deflater, utf8: Encoder, a: seq<File>)
    requires Archived(deflate, utf8, a).None?
    ensures Reproducible(deflate, utf8, a)
  {
    forall b: seq<File>, sort: Sorter, sort': Sorter | Sorts(sort) && Sorts(sort') && multiset(a) == multiset(b)
      ensures Archived(deflate, utf8, sort(a)) == Archived(deflate, utf8, sort'(b))
    {
      FitsPermuted(deflate, utf8, a, sort(a));
      FitsPermuted(deflate, utf8, a, sort'(b));
    }
  }

  lemma DistinctReproducible(deflate: Deflater, utf8: Encoder, a: seq<File>)
    requires DistinctNames(a)
    ensures Reproducible(deflate, utf8, a)
  {
    forall b: seq<File>, sort: Sorter, sort': Sorter | Sorts(sort) && Sorts(sort') && multiset(a) == multiset(b)
      ensures Archived(deflate, utf8, sort(a)) == Archived(deflate, utf8, sort'(b))
    {
      DistinctPermuted(a, b);
      SameMembers(a, b);
      SortAgrees(sort, sort', a, b);
    }
  }

  lemma AlikeReproducible(deflate: Deflater, utf8: Encoder, a: seq<File>)
    requires AllAlike(Listing(utf8, a))
    ensures Reproducible(deflate, utf8, a)
  {
    forall b: seq<File>, sort: Sorter, sort': Sorter | Sorts(sort) && Sorts(sort') && multiset(a) == multiset(b)
      ensures Archived(deflate, utf8, sort(a)) == Archived(deflate, utf8, sort'(b))
    {
      AlikePermuted(utf8, a, sort(a));
      AlikePermuted(utf8, a, sort'(b));
      AlikePacked(deflate, utf8, sort(a), sort'(b));
    }
  }

  lemma AlikePermuted(utf8: Encoder, a: seq<File>, x: seq<File>)
    requires AllAlike(Listing(utf8, a)) && multiset(a) == multiset(x)
    ensures Listing(utf8, a) == Listing(utf8, x)
  {
    var ms := Listing(utf8, a);
    assert |a| == |multiset(a)| == |multiset(x)| == |x|;
    forall i | 0 <= i < |x|
      ensures Listing(utf8, x)[i] == ms[i]
    {
      assert x[i] in multiset(a);
      var k :| 0 <= k < |a| && a[k] == x[i];
      assert Listing(utf8, x)[i] == ms[k];
    }
  }

  lemma TwiceCounted(b: seq<File>, i: nat, j: nat)
    requires i < j < |b| && b[i] == b[j]
    ensures multiset(b)[b[i]] >= 2
  {
    assert b == b[..j] + b[j..];
    assert b[..j][i] == b[i] && b[j..][0] == b[i];
    assert b[i] in multiset(b[..j]) && b[i] in multiset(b[j..]);
  }

  /** Rearranging keeps names distinct. */
  lemma DistinctPermuted(a: seq<File>, b: seq<File>)
    requires DistinctNames(a) && multiset(a) == multiset(b)
    ensures DistinctNames(b)
  {
    forall i, j | 0 <= i < j < |b|
      ensures b[i].name != b[j].name
    {
      assert b[i] in multiset(a) && b[j] in multiset(a);
      DistinctOneEach(a);
      if b[i] == b[j] {
        TwiceCounted(b, i, j);
        DistinctCounts(a, b[i]);
      }
    }
  }

  function Swapped(a: seq<File>, i: nat, j: nat): (b: seq<File>)
    requires i < j < |a|
    ensures |b| == |a| && multiset(b) == multiset(a) && b[i] == a[j]
  {
    a[i := a[j]][j := a[i]]
  }

  lemma SwappedRepeats(a: seq<File>, i: nat, j: nat)
    requires i < j < |a| && !DistinctNames(a)
    ensures !DistinctNames(Swapped(a, i, j))
  {
    if DistinctNames(Swapped(a, i, j)) {
      DistinctPermuted(Swapped(a, i, j), a);
    }
  }

  lemma OrderMatters(deflate: Deflater, inflate: Inflater, utf8: Encoder, a: seq<File>)
    requires Inverts(inflate, deflate) && Archived(deflate, utf8, a).Some?
    requires !DistinctNames(a) && !AllAlike(Listing(utf8, a))
    ensures !Reproducible(deflate, utf8, a)
  {
    var ms := Listing(utf8, a);
    var i, j :| 0 <= i < j < |ms| && ms[i] != ms[j];
    var b := Swapped(a, i, j);
    assert Listing(utf8, b)[i] == ms[j];
    LazySortSorts();
    SwappedRepeats(a, i, j);
    ArchivedAlike(deflate, inflate, utf8, a, b);
    assert LazySort()(a) == a && LazySort()(b) == b;
  }

  /** The archive of a listing is reproducible exactly when its names are distinct, or its members all look the same
      once encoded, or it is too large to have one. */
  lemma ReproducibleExactly(deflate: Deflater, inflate: Inflater, utf8: Encoder, a: seq<File>)
    requires Inverts(inflate, deflate)
    ensures Reproducible(deflate, utf8, a) <==>
            DistinctNames(a) || AllAlike(Listing(utf8, a)) || Archived(deflate, utf8, a).None?
  {
    if DistinctNames(a) {
      DistinctReproducible(deflate, utf8, a);
    } else if AllAlike(Listing(utf8, a)) {
      AlikeReproducible(deflate, utf8, a);
    } else if Archived(deflate, utf8, a).None? {
      NoneReproducible(deflate, utf8, a);
    } else {
      OrderMatters(deflate, inflate, utf8, a);
    }
  }
}
