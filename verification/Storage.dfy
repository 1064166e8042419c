/** Disk space per app: what a scan of the two data roots charges to whom, with hardlinks counted once. */
module Storage {
  import opened Common

  type Inode = (int, int)

  /** What `stat` says of a file. */
  datatype Meta = Meta(links: nat, blocks: nat)

  type Disk = map<Inode, Meta>

  /** A directory entry: a file, a directory, one that refuses to be listed, a symlink to a directory, or something of
      which nothing can be learnt, other symlinks included. */
  datatype Entry =
    | File(name: string, inode: Inode)
    | Dir(name: string, listing: seq<Entry>)
    | Sealed(name: string)
    | DirLink(name: string, followed: seq<Entry>)
    | Nothing(name: string)

  const BLOCK := 512

  function Bytes(disk: Disk, x: Inode): nat { if x in disk then BLOCK * disk[x].blocks else 0 }

  predicate Shared(disk: Disk, x: Inode) { x in disk && disk[x].links > 1 }

  // ---------------------------------------------------------------- the scan of one directory

  /** The files under a listing in the order of the scan; symlinks are not followed. */
  function Files(listing: seq<Entry>): seq<Inode>
    decreases listing
  {
    if listing == [] then [] else FilesOf(listing[0]) + Files(listing[1..])
  }

  function FilesOf(entry: Entry): seq<Inode>
    decreases entry
  {
    match entry
    case File(_, inode) => [inode]
    case Dir(_, inner) => Files(inner)
    case _ => []
  }

  lemma {:induction false} FilesAppend(listing: seq<Entry>, entry: Entry)
    ensures Files(listing + [entry]) == Files(listing) + FilesOf(entry)
  {
    if listing == [] {
      assert Files([]) == [] && ([] + [entry])[1..] == [];
    } else {
      assert (listing + [entry])[1..] == listing[1..] + [entry];
      FilesAppend(listing[1..], entry);
    }
  }

  datatype Scan = Scan(total: nat, seen: set<Inode>)

  /** One file after another: a shared one is charged unless it was seen. */
  function Charge(disk: Disk, files: seq<Inode>, seen: set<Inode>): Scan {
    if files == [] then Scan(0, seen) else
      var before, x := Charge(disk, files[..|files| - 1], seen), files[|files| - 1];
      if Shared(disk, x) && x in before.seen then before
      else Scan(before.total + Bytes(disk, x), if Shared(disk, x) then before.seen + {x} else before.seen)
  }

  lemma {:induction false} ChargeOn(disk: Disk, a: seq<Inode>, b: seq<Inode>, seen: set<Inode>)
    ensures var first := Charge(disk, a, seen);
      var second := Charge(disk, b, first.seen);
      Charge(disk, a + b, seen) == Scan(first.total + second.total, second.seen)
  {
    if b == [] {
      assert a + b == a;
    } else {
      assert (a + b)[..|a + b| - 1] == a + b[..|b| - 1];
      ChargeOn(disk, a, b[..|b| - 1], seen);
    }
  }

  lemma {:induction false} ChargeOne(disk: Disk, x: Inode, seen: set<Inode>)
    ensures Charge(disk, [], seen) == Scan(0, seen)
    ensures Charge(disk, [x], seen) ==
      if Shared(disk, x) && x in seen then Scan(0, seen)
      else Scan(Bytes(disk, x), if Shared(disk, x) then seen + {x} else seen)
  {
    assert [x][..0] == [];
  }

  class Usage {
    var seen: set<Inode>

    /** `_dir_size_bytes`, with the set of inodes seen shared by all the calls. */
    method DirSize(disk: Disk, listing: seq<Entry>) returns (total: nat)
      modifies this
      ensures Scan(total, seen) == Charge(disk, Files(listing), old(seen))
      decreases listing
    {
      hide Files, Charge, Shared, Bytes;
      total := 0;
      NoFiles(disk, seen);
      var i := 0;
      while i < |listing|
        invariant i <= |listing|
        invariant Scan(total, seen) == Charge(disk, Files(listing[..i]), old(seen))
      {
        var entry := listing[i];
        assert listing[..i + 1] == listing[..i] + [entry];
        FilesAppend(listing[..i], entry);
        ChargeOn(disk, Files(listing[..i]), FilesOf(entry), old(seen));
        i := i + 1;
        match entry
        case Dir(_, inner) =>
          var size := DirSize(disk, inner);
          total := total + size;
        case File(_, inode) =>
          ChargeOne(disk, inode, seen);
          if Shared(disk, inode) {
            if inode in seen { continue; }
            seen := seen + {inode};
          }
          total := total + Bytes(disk, inode);
        case _ => NoFiles(disk, seen);
      }
      assert listing[..|listing|] == listing;
    }

    /** `_subdir_sizes`: one entry for each directory of the root, a top-level symlink to a directory being one. */
    method SubdirSizes(disk: Disk, root: seq<Entry>) returns (sizes: map<string, nat>)
      requires DistinctNames(root)
      modifies this
      ensures sizes.Keys == set e | e in root && (e.Dir? || e.Sealed? || e.DirLink?) :: e.name
      ensures forall a :: a in sizes ==> sizes[a] == Share(disk, root, old(seen), a)
      ensures SumOf(sizes) == Charge(disk, Visited(root), old(seen)).total
      ensures seen == Charge(disk, Visited(root), old(seen)).seen
    {
      hide Files, Charge, Visited, SumOf, Share;
      sizes := map[];
      NothingVisited(disk, seen);
      for i := 0 to |root|
        invariant sizes.Keys == set e | e in root[..i] && IsDirectory(e) :: e.name
        invariant forall a :: a in sizes ==> sizes[a] == Share(disk, root[..i], old(seen), a)
        invariant Scan(SumOf(sizes), seen) == Charge(disk, Visited(root[..i]), old(seen))
      {
        var entry := root[i];
        assert root[..i + 1] == root[..i] + [entry];
        VisitedAppends(root[..i], entry);
        ChargeOn(disk, Visited(root[..i]), FilesIn(entry), old(seen));
        ShareOfNext(disk, root[..i], entry, old(seen));
        if IsDirectory(entry) {
          var size := DirSize(disk, Listing(entry));
          assert entry.name !in sizes;
          SumGrows(sizes, entry.name, size);
          sizes := sizes[entry.name := size];
        } else {
          NoFiles(disk, seen);
        }
      }
      assert root[..|root|] == root;
    }

    /** `per_app_usage`: the temporary tier on top of the persistent one, an app in both being charged the sum. */
    method PerApp(disk: Disk, persistent: seq<Entry>, temporary: seq<Entry>) returns (usage: map<string, nat>)
      requires DistinctNames(persistent) && DistinctNames(temporary)
      modifies this
      ensures SumOf(usage) == Charge(disk, Visited(persistent) + Visited(temporary), {}).total
      ensures usage.Keys ==
        set e | e in persistent + temporary && (e.Dir? || e.Sealed? || e.DirLink?) :: e.name
      ensures forall a :: a in usage ==>
        usage[a] == Share(disk, persistent, {}, a)
                    + Share(disk, temporary, Charge(disk, Visited(persistent), {}).seen, a)
    {
      hide Charge, Visited, SumOf, Share;
      NoShare(disk, persistent, {});
      NoShare(disk, temporary, Charge(disk, Visited(persistent), {}).seen);
      seen := {};
      usage := SubdirSizes(disk, persistent);
      var sizes := SubdirSizes(disk, temporary);
      ChargeOn(disk, Visited(persistent), Visited(temporary), {});
      usage := AddSizes(usage, sizes);
    }
  }

  /** `_add_sizes`. */
  method AddSizes(sizes: map<string, nat>, more: map<string, nat>) returns (sum: map<string, nat>)
    ensures sum.Keys == sizes.Keys + more.Keys
    ensures forall a :: a in sum ==>
      sum[a] == (if a in sizes then sizes[a] else 0) + if a in more then more[a] else 0
    ensures SumOf(sum) == SumOf(sizes) + SumOf(more)
  {
    hide SumOf;
    sum := sizes;
    var left := more.Keys;
    assert Only(more, left) == more;
    while left != {}
      invariant left <= more.Keys && sum.Keys == sizes.Keys + (more.Keys - left)
      invariant forall a :: a in sum ==>
        sum[a] == (if a in sizes then sizes[a] else 0) + if a in more && a !in left then more[a] else 0
      invariant SumOf(sum) + SumOf(Only(more, left)) == SumOf(sizes) + SumOf(more)
      decreases left
    {
      var a :| a in left;
      var before := if a in sum then sum[a] else 0;
      SumChanges(sum, a, before + more[a]);
      SumSplits(Only(more, left), a);
      assert Only(more, left) - {a} == Only(more, left - {a});
      sum := sum[a := before + more[a]];
      left := left - {a};
    }
    SumOfNothing(Only(more, left));
  }

  // ---------------------------------------------------------------- roots and sums

  predicate DistinctNames(root: seq<Entry>) { forall i, j :: 0 <= i < j < |root| ==> root[i].name != root[j].name }

  /** Entry by entry: no name comes again. */
  lemma {:induction false} NamesExactly(root: seq<Entry>, entry: Entry)
    ensures DistinctNames([])
    ensures DistinctNames(root + [entry]) <==> DistinctNames(root) && forall e :: e in root ==> e.name != entry.name
  {
    var more := root + [entry];
    assert forall i :: 0 <= i < |root| ==> more[i] == root[i];
    assert more[|root|] == entry;
  }

  predicate IsDirectory(entry: Entry) { entry.Dir? || entry.Sealed? || entry.DirLink? }

  function Listing(entry: Entry): seq<Entry> {
    match entry
    case Dir(_, listing) => listing
    case DirLink(_, followed) => followed
    case _ => []
  }

  function FilesIn(entry: Entry): seq<Inode> { Files(Listing(entry)) }

  /** The files of all the directories of a root, in the order of the scan. */
  function Visited(root: seq<Entry>): seq<Inode> {
    if root == [] then [] else Visited(root[..|root| - 1]) + FilesIn(root[|root| - 1])
  }

  /** What a root charges to one name: its files that were not seen in the directories before it. */
  function Share(disk: Disk, root: seq<Entry>, seen: set<Inode>, name: string): nat {
    if root == [] then 0 else
      var init, entry := root[..|root| - 1], root[|root| - 1];
      if IsDirectory(entry) && entry.name == name
      then Charge(disk, FilesIn(entry), Charge(disk, Visited(init), seen).seen).total
      else Share(disk, init, seen, name)
  }

  lemma ShareOfNext(disk: Disk, root: seq<Entry>, entry: Entry, seen: set<Inode>)
    ensures forall a ::
      Share(disk, root + [entry], seen, a) ==
        if IsDirectory(entry) && entry.name == a
        then Charge(disk, FilesIn(entry), Charge(disk, Visited(root), seen).seen).total
        else Share(disk, root, seen, a)
  {
    assert (root + [entry])[..|root|] == root;
  }

  lemma {:induction false} NoShare(disk: Disk, root: seq<Entry>, seen: set<Inode>)
    ensures forall a :: (forall e :: e in root && IsDirectory(e) ==> e.name != a) ==> Share(disk, root, seen, a) == 0
  {
    if root != [] { NoShare(disk, root[..|root| - 1], seen); }
  }

  lemma NothingVisited(disk: Disk, seen: set<Inode>)
    ensures Visited([]) == [] && Charge(disk, [], seen) == Scan(0, seen) && SumOf(map[]) == 0
  {
  }

  lemma VisitedAppends(root: seq<Entry>, entry: Entry)
    ensures Visited(root + [entry]) == Visited(root) + FilesIn(entry)
    ensures !IsDirectory(entry) ==> FilesIn(entry) == []
  {
    assert (root + [entry])[..|root|] == root;
  }

  function Only(sizes: map<string, nat>, names: set<string>): map<string, nat> {
    map a | a in sizes && a in names :: sizes[a]
  }

  /** The sum of the values, in whatever order. */
  ghost function SumOf(sizes: map<string, nat>): nat
    decreases sizes.Keys
  {
    if sizes.Keys == {} then 0 else
      var a :| a in sizes.Keys;
      sizes[a] + SumOf(sizes - {a})
  }

  lemma SumOfNothing(sizes: map<string, nat>)
    requires sizes.Keys == {}
    ensures SumOf(sizes) == 0
  {
  }

  lemma {:induction false} SumSplits(sizes: map<string, nat>, a: string)
    requires a in sizes
    ensures SumOf(sizes) == sizes[a] + SumOf(sizes - {a})
    decreases sizes.Keys
  {
    var b :| b in sizes.Keys && SumOf(sizes) == sizes[b] + SumOf(sizes - {b});
    if b != a {
      SumSplits(sizes - {b}, a);
      SumSplits(sizes - {a}, b);
      assert sizes - {b} - {a} == sizes - {a} - {b};
    }
  }

  lemma {:induction false} SumGrows(sizes: map<string, nat>, a: string, size: nat)
    requires a !in sizes
    ensures SumOf(sizes[a := size]) == SumOf(sizes) + size
  {
    SumSplits(sizes[a := size], a);
    assert sizes[a := size] - {a} == sizes;
  }

  lemma {:induction false} SumChanges(sizes: map<string, nat>, a: string, size: nat)
    ensures SumOf(sizes[a := size]) + (if a in sizes then sizes[a] else 0) == SumOf(sizes) + size
  {
    SumSplits(sizes[a := size], a);
    if a in sizes {
      SumSplits(sizes, a);
      assert sizes[a := size] - {a} == sizes - {a};
    } else {
      assert sizes[a := size] - {a} == sizes;
    }
  }

  lemma NoFiles(disk: Disk, seen: set<Inode>)
    ensures Files([]) == [] && Charge(disk, [], seen) == Scan(0, seen)
  {
  }

  // ---------------------------------------------------------------- conservation

  function Inodes(files: seq<Inode>): set<Inode> { set x | x in files }

  /** The bytes of a set of inodes, each once. */
  ghost function Total(disk: Disk, inodes: set<Inode>): nat {
    if inodes == {} then 0 else
      var x :| x in inodes;
      Bytes(disk, x) + Total(disk, inodes - {x})
  }

  lemma {:induction false} TotalSplits(disk: Disk, inodes: set<Inode>, x: Inode)
    requires x in inodes
    ensures Total(disk, inodes) == Bytes(disk, x) + Total(disk, inodes - {x})
    decreases inodes
  {
    var y :| y in inodes && Total(disk, inodes) == Bytes(disk, y) + Total(disk, inodes - {y});
    if x != y {
      TotalSplits(disk, inodes - {y}, x);
      TotalSplits(disk, inodes - {x}, y);
      assert inodes - {y} - {x} == inodes - {x} - {y};
    }
  }

  lemma {:induction false} TotalOfUnion(disk: Disk, a: set<Inode>, b: set<Inode>)
    requires a !! b
    ensures Total(disk, a + b) == Total(disk, a) + Total(disk, b)
    decreases a
  {
    if a == {} {
      assert a + b == b;
    } else {
      var x :| x in a;
      TotalSplits(disk, a, x);
      TotalSplits(disk, a + b, x);
      assert (a + b) - {x} == (a - {x}) + b;
      TotalOfUnion(disk, a - {x}, b);
    }
  }

  lemma {:induction false} NothingInTotal(disk: Disk, inodes: set<Inode>)
    ensures Total(disk, inodes) == 0 <==> forall x :: x in inodes ==> Bytes(disk, x) == 0
    decreases inodes
  {
    if inodes != {} {
      var x :| x in inodes;
      TotalSplits(disk, inodes, x);
      NothingInTotal(disk, inodes - {x});
    }
  }

  function SharedOf(disk: Disk, files: seq<Inode>): set<Inode> { set x | x in files && Shared(disk, x) }

  /** The bytes of the files with one link, once for each time they come up. */
  function Singles(disk: Disk, files: seq<Inode>): nat {
    if files == [] then 0 else
      var x := files[|files| - 1];
      Singles(disk, files[..|files| - 1]) + if Shared(disk, x) then 0 else Bytes(disk, x)
  }

  lemma {:induction false} SinglesOn(disk: Disk, a: seq<Inode>, b: seq<Inode>)
    ensures Singles(disk, a + b) == Singles(disk, a) + Singles(disk, b)
  {
    if b == [] {
      assert a + b == a;
    } else {
      assert (a + b)[..|a + b| - 1] == a + b[..|b| - 1];
      SinglesOn(disk, a, b[..|b| - 1]);
    }
  }

  /** Whatever the order: shared files count once each, unless seen before, the others each time they come up. */
  lemma {:induction false} ChargeIs(disk: Disk, files: seq<Inode>, seen: set<Inode>)
    ensures var scan := Charge(disk, files, seen);
      && scan.seen == seen + SharedOf(disk, files)
      && scan.total == Total(disk, SharedOf(disk, files) - seen) + Singles(disk, files)
  {
    if files == [] {
      assert SharedOf(disk, files) - seen == {};
    } else {
      var init, x := files[..|files| - 1], files[|files| - 1];
      assert files == init + [x];
      ChargeIs(disk, init, seen);
      if Shared(disk, x) {
        assert SharedOf(disk, files) == SharedOf(disk, init) + {x};
        if x in seen + SharedOf(disk, init) {
          assert SharedOf(disk, files) - seen == SharedOf(disk, init) - seen;
        } else {
          TotalSplits(disk, SharedOf(disk, files) - seen, x);
          assert SharedOf(disk, files) - seen - {x} == SharedOf(disk, init) - seen;
        }
      } else {
        assert SharedOf(disk, files) == SharedOf(disk, init);
      }
    }
  }

  /** The files under the real directories of a root, and those only its top-level symlinks lead to. */
  function Real(root: seq<Entry>): seq<Inode> {
    if root == [] then [] else
      Real(root[..|root| - 1]) + if root[|root| - 1].DirLink? then [] else FilesIn(root[|root| - 1])
  }

  function Followed(root: seq<Entry>): seq<Inode> {
    if root == [] then [] else
      Followed(root[..|root| - 1]) + if root[|root| - 1].DirLink? then FilesIn(root[|root| - 1]) else []
  }

  lemma {:induction false} InodesOn(a: seq<Inode>, b: seq<Inode>)
    ensures Inodes(a + b) == Inodes(a) + Inodes(b)
  {
  }

  lemma {:induction false} VisitedParts(disk: Disk, root: seq<Entry>)
    ensures Inodes(Visited(root)) == Inodes(Real(root)) + Inodes(Followed(root))
    ensures Singles(disk, Visited(root)) == Singles(disk, Real(root)) + Singles(disk, Followed(root))
  {
    if root != [] {
      hide Singles, FilesIn, Inodes;
      var init, last := root[..|root| - 1], root[|root| - 1];
      var files := FilesIn(last);
      VisitedParts(disk, init);
      SinglesOn(disk, Visited(init), files);
      InodesOn(Visited(init), files);
      if last.DirLink? {
        assert Real(root) == Real(init);
        SinglesOn(disk, Followed(init), files);
        InodesOn(Followed(init), files);
      } else {
        assert Followed(root) == Followed(init);
        SinglesOn(disk, Real(init), files);
        InodesOn(Real(init), files);
      }
    }
  }

  /** A file with one link has one directory entry. */
  ghost predicate OneEntryEach(disk: Disk, files: seq<Inode>) {
    forall i, j :: 0 <= i < j < |files| && files[i] == files[j] ==> files[i] in disk && disk[files[i]].links > 1
  }

  /** What the two readings of a stat come to. */
  lemma {:induction false} StatMeans(disk: Disk, x: Inode)
    ensures Shared(disk, x) <==> x in disk && disk[x].links > 1
    ensures Bytes(disk, x) == if x in disk then 512 * disk[x].blocks else 0
  {
  }

  /** The bytes of a set of inodes: 512 for each block of each. */
  lemma {:induction false} TotalCounts(disk: Disk, inodes: set<Inode>, x: Inode)
    requires x !in inodes
    ensures Total(disk, {}) == 0
    ensures Total(disk, inodes + {x}) == Total(disk, inodes) + if x in disk then 512 * disk[x].blocks else 0
  {
    TotalSplits(disk, inodes + {x}, x);
    assert inodes + {x} - {x} == inodes;
  }

  ghost predicate SinglesDiffer(disk: Disk, files: seq<Inode>) {
    forall i, j :: 0 <= i < j < |files| && files[i] == files[j] ==> Shared(disk, files[i])
  }

  lemma {:induction false} SinglesOnce(disk: Disk, files: seq<Inode>)
    requires SinglesDiffer(disk, files)
    ensures Singles(disk, files) == Total(disk, Inodes(files) - SharedOf(disk, files))
  {
    if files == [] {
      assert Inodes(files) - SharedOf(disk, files) == {};
    } else {
      var init, x := files[..|files| - 1], files[|files| - 1];
      assert files == init + [x];
      SinglesOnce(disk, init);
      var before, after := Inodes(init) - SharedOf(disk, init), Inodes(files) - SharedOf(disk, files);
      if Shared(disk, x) {
        assert after == before;
      } else {
        assert x !in init;
        assert after - {x} == before;
        TotalSplits(disk, after, x);
      }
    }
  }

  lemma {:induction false} NoSingles(disk: Disk, files: seq<Inode>)
    ensures Singles(disk, files) == 0 <==> forall x :: x in files && !Shared(disk, x) ==> Bytes(disk, x) == 0
  {
    if files != [] {
      var init, x := files[..|files| - 1], files[|files| - 1];
      assert files == init + [x];
      NoSingles(disk, init);
    }
  }

  /** Nothing is charged twice and nothing forgotten: the sum over all apps is the bytes of the distinct inodes under
      the real directories of both roots, in whatever order they are scanned, if and only if every file that only a
      top-level symlink leads to is empty, or is a hardlink of a file under the roots. The scan does not follow
      symlinks, but the listing of the roots does: a link from one app's directory to another's counts it twice. */
  lemma {:induction false} ConservedExactly(disk: Disk, persistent: seq<Entry>, temporary: seq<Entry>)
    requires OneEntryEach(disk, Real(persistent) + Real(temporary))
    ensures var charged := Charge(disk, Visited(persistent) + Visited(temporary), {}).total;
      var under := Inodes(Real(persistent) + Real(temporary));
      && charged >= Total(disk, under)
      && (charged == Total(disk, under) <==>
            forall x :: x in Followed(persistent) + Followed(temporary) && x in disk ==>
              disk[x].blocks == 0 || (disk[x].links > 1 && x in under))
  {
    hide Charge, Visited, Real, Followed, Singles, Total, Shared, Bytes;
    var own, followed := Real(persistent) + Real(temporary), Followed(persistent) + Followed(temporary);
    var all := Visited(persistent) + Visited(temporary);
    VisitedParts(disk, persistent);
    VisitedParts(disk, temporary);
    SinglesOn(disk, Visited(persistent), Visited(temporary));
    SinglesOn(disk, Real(persistent), Real(temporary));
    SinglesOn(disk, Followed(persistent), Followed(temporary));
    InodesOn(Visited(persistent), Visited(temporary));
    InodesOn(Real(persistent), Real(temporary));
    InodesOn(Followed(persistent), Followed(temporary));
    assert Inodes(all) == Inodes(own) + Inodes(followed);
    ChargeIs(disk, all, {});
    forall x ensures (Shared(disk, x) <==> x in disk && disk[x].links > 1)
      && (Bytes(disk, x) == if x in disk then 512 * disk[x].blocks else 0)
    {
      StatMeans(disk, x);
    }
    assert SinglesDiffer(disk, own);
    SinglesOnce(disk, own);
    NoSingles(disk, followed);
    var shared, extra := SharedOf(disk, own), SharedOf(disk, followed) - SharedOf(disk, own);
    assert SharedOf(disk, all) - {} == shared + extra by {
      assert forall x :: x in all <==> x in Inodes(all);
    }
    TotalOfUnion(disk, shared, extra);
    TotalOfUnion(disk, shared, Inodes(own) - shared);
    assert shared + (Inodes(own) - shared) == Inodes(own);
    NothingInTotal(disk, extra);
    assert forall x :: x in extra <==> x in followed && Shared(disk, x) && x !in Inodes(own);
  }
}
