/** mkbootfs walks a directory tree and ejects a cpio entry for each file.  Paths live in two
    buffers that every level of the recursion edits in place and must put back; the order of
    the archive must not depend on the order in which the system lists a directory. */
module Mkbootfs {
  import opened Bytes
  import opened Cpio

  const DOT: byte := 46
  const SLASH: byte := 47
  const ROOT: Bytes := [114, 111, 111, 116]
  const LINK_MAX := 1024

  /** What the file system has under a path; the names of a directory are in readdir order. */
  datatype Inode = Reg(mode: word, data: Bytes) | Dir(mode: word, names: seq<Bytes>) | Link(mode: word, target: Bytes) | Special

  type Fs = map<Bytes, Inode>

  // --- strcmp and qsort ---

  predicate Le(a: Bytes, b: Bytes)
  {
    a == [] || (b != [] && (a[0] < b[0] || (a[0] == b[0] && Le(a[1..], b[1..]))))
  }

  lemma {:induction false} LeTotal(a: Bytes, b: Bytes)
    ensures Le(a, b) || Le(b, a)
  {
    if a != [] && b != [] && a[0] == b[0] { LeTotal(a[1..], b[1..]); }
  }

  lemma {:induction false} LeTrans(a: Bytes, b: Bytes, c: Bytes)
    requires Le(a, b) && Le(b, c)
    ensures Le(a, c)
  {
    if a != [] && a[0] == b[0] == c[0] { LeTrans(a[1..], b[1..], c[1..]); }
  }

  lemma {:induction false} LeAntisym(a: Bytes, b: Bytes)
    requires Le(a, b) && Le(b, a)
    ensures a == b
  {
    if a != [] {
      LeAntisym(a[1..], b[1..]);
      assert a == [a[0]] + a[1..] && b == [b[0]] + b[1..];
    }
  }

  /** That is strcmp: a is a prefix of b, or smaller where they first differ. */
  lemma {:induction false} LeIsStrcmp(a: Bytes, b: Bytes)
    ensures Le(a, b) <==> a <= b || exists k :: 0 <= k < |a| && k < |b| && a[..k] == b[..k] && a[k] < b[k]
  {
    if a != [] && b != [] && a[0] == b[0] {
      LeIsStrcmp(a[1..], b[1..]);
      if k :| 0 <= k < |a| && k < |b| && a[..k] == b[..k] && a[k] < b[k] {
        assert a[1..][..k - 1] == a[..k][1..] && b[1..][..k - 1] == b[..k][1..];
        assert a[1..][k - 1] < b[1..][k - 1];
      }
      if k :| 0 <= k < |a| - 1 && k < |b| - 1 && a[1..][..k] == b[1..][..k] && a[1..][k] < b[1..][k] {
        assert a[..k + 1] == [a[0]] + a[1..][..k] && b[..k + 1] == [b[0]] + b[1..][..k];
        assert a[k + 1] < b[k + 1];
      }
      assert a == [a[0]] + a[1..] && b == [b[0]] + b[1..];
    } else if a != [] && b != [] && a[0] < b[0] {
      assert a[..0] == b[..0];
    }
  }

  predicate Sorted(s: seq<Bytes>)
  {
    forall i, j :: 0 <= i < j < |s| ==> Le(s[i], s[j])
  }

  function Insert(x: Bytes, s: seq<Bytes>): (r: seq<Bytes>)
    ensures |r| == |s| + 1
  {
    if s == [] || Le(x, s[0]) then [x] + s else [s[0]] + Insert(x, s[1..])
  }

  /** qsort with strcmp. */
  function Sort(s: seq<Bytes>): (r: seq<Bytes>)
    ensures |r| == |s|
  {
    if s == [] then [] else Insert(s[0], Sort(s[1..]))
  }

  lemma {:induction false} InsertMultiset(x: Bytes, s: seq<Bytes>)
    ensures multiset(Insert(x, s)) == multiset{x} + multiset(s)
  {
    if s != [] && !Le(x, s[0]) {
      InsertMultiset(x, s[1..]);
      assert s == [s[0]] + s[1..];
    }
  }

  lemma {:induction false} InsertSorted(x: Bytes, s: seq<Bytes>)
    requires Sorted(s)
    ensures Sorted(Insert(x, s))
  {
    if s == [] {
    } else if Le(x, s[0]) {
      forall j | 0 <= j < |s| ensures Le(x, s[j]) {
        if j > 0 { LeTrans(x, s[0], s[j]); }
      }
    } else {
      LeTotal(x, s[0]);
      InsertSorted(x, s[1..]);
      var t := Insert(x, s[1..]);
      InsertMultiset(x, s[1..]);
      forall j | 0 <= j < |t| ensures Le(s[0], t[j]) {
        assert t[j] in multiset(t);
      }
    }
  }

  lemma {:induction false} SortProps(s: seq<Bytes>)
    ensures Sorted(Sort(s)) && multiset(Sort(s)) == multiset(s)
  {
    if s != [] {
      SortProps(s[1..]);
      InsertSorted(s[0], Sort(s[1..]));
      InsertMultiset(s[0], Sort(s[1..]));
      assert s == [s[0]] + s[1..];
    }
  }

  /** Everything in a sorted list is at least its first element. */
  lemma SortedHead(a: seq<Bytes>, x: Bytes)
    requires Sorted(a) && a != [] && x in multiset(a)
    ensures Le(a[0], x)
  {
    LeTotal(x, x);
    var i :| 0 <= i < |a| && a[i] == x;
  }

  lemma SortedTail(a: seq<Bytes>)
    requires Sorted(a) && a != []
    ensures Sorted(a[1..]) && multiset(a[1..]) == multiset(a) - multiset{a[0]}
  {
    assert a == [a[0]] + a[1..];
  }

  lemma {:induction false} SortedUnique(a: seq<Bytes>, b: seq<Bytes>)
    requires Sorted(a) && Sorted(b) && multiset(a) == multiset(b)
    ensures a == b
  {
    hide Le, Sorted;
    assert |a| == |multiset(a)| && |b| == |multiset(b)|;
    if a != [] {
      SortedTail(a);
      SortedTail(b);
      assert a[0] in multiset(a) && b[0] in multiset(b);
      SortedHead(a, b[0]);
      SortedHead(b, a[0]);
      LeAntisym(a[0], b[0]);
      SortedUnique(a[1..], b[1..]);
      assert a == [a[0]] + a[1..] && b == [b[0]] + b[1..];
    }
  }

  /** Sorting forgets the order of its input. */
  lemma SortPermutation(s: seq<Bytes>, t: seq<Bytes>)
    requires multiset(s) == multiset(t)
    ensures Sort(s) == Sort(t)
  {
    SortProps(s);
    SortProps(t);
    SortedUnique(Sort(s), Sort(t));
  }

  /** Dotfiles and entries named "root" are ignored. */
  predicate Kept(name: Bytes)
  {
    !(name != [] && name[0] == DOT) && name != ROOT
  }

  function Visible(names: seq<Bytes>): (r: seq<Bytes>)
    ensures forall n :: n in r ==> n in names && Kept(n)
  {
    if names == [] then []
    else if Kept(names[0]) then [names[0]] + Visible(names[1..])
    else Visible(names[1..])
  }

  lemma {:induction false} VisibleCount(names: seq<Bytes>, x: Bytes)
    ensures multiset(Visible(names))[x] == if Kept(x) then multiset(names)[x] else 0
  {
    if names != [] {
      VisibleCount(names[1..], x);
      assert names == [names[0]] + names[1..];
    }
  }

  lemma VisiblePermutation(s: seq<Bytes>, t: seq<Bytes>)
    requires multiset(s) == multiset(t)
    ensures Listing(s) == Listing(t)
  {
    forall x ensures multiset(Visible(s))[x] == multiset(Visible(t))[x] {
      VisibleCount(s, x);
      VisibleCount(t, x);
    }
    assert multiset(Visible(s)) == multiset(Visible(t));
    SortPermutation(Visible(s), Visible(t));
  }

  /** What _archive_dir goes through: the names that are kept, sorted. */
  function Listing(names: seq<Bytes>): (r: seq<Bytes>)
    ensures Sorted(r) && forall n :: n in r ==> n in names
  {
    SortProps(Visible(names));
    assert forall n :: n in Sort(Visible(names)) ==> n in multiset(Sort(Visible(names)));
    Sort(Visible(names))
  }

  // --- the walk, on paths ---

  function Child(dir: Bytes, name: Bytes): (p: Bytes)
  {
    dir + [SLASH] + name
  }

  /** The name in the archive; at the top there is no directory in front. */
  function OutChild(dir: Bytes, name: Bytes): (p: Bytes)
  {
    if dir == [] then name else dir + [SLASH] + name
  }

  /** A file system: every name a directory lists is there, is not empty and has no NUL. */
  ghost predicate FsOk(fs: Fs)
  {
    forall p, n :: p in fs && fs[p].Dir? && n in fs[p].names ==> n != [] && 0 !in n && Child(p, n) in fs
  }

  /** A bound on the lengths of the paths, for the recursion. */
  ghost function Longest(paths: set<Bytes>): (m: nat)
    ensures forall p :: p in paths ==> |p| <= m
  {
    if paths == {} then 0
    else
      var p :| p in paths;
      var m := Longest(paths - {p});
      if |p| > m then |p| else m
  }

  ghost function Depth(fs: Fs, p: Bytes): (d: nat)
  {
    if |p| <= Longest(fs.Keys) then Longest(fs.Keys) - |p| else 0
  }

  /** The entry for an inode under the archive name `out`: its mode as fix_stat (fix) has it,
      and a file's bytes, nothing for a directory, or the first 1024 bytes of a link's target. */
  predicate Describes(i: Inode, out: Bytes, fix: (Bytes, word) -> word, e: Entry)
  {
    && !i.Special? && e.name == out && e.mode == fix(out, i.mode)
    && match i
       case Reg(_, data) => e.data == data
       case Dir(_, _) => e.data == []
       case Link(_, target) => e.data <= target && (|e.data| == |target| || |e.data| == 1024) && |e.data| <= 1024
       case Special => false
  }

  /** What _archive hands to _eject. */
  function EntryOf(i: Inode, out: Bytes, fix: (Bytes, word) -> word): (e: Entry)
    requires !i.Special?
    ensures Describes(i, out, fix, e)
  {
    match i
    case Reg(mode, data) => Entry(out, fix(out, mode), data)
    case Dir(mode, _) => Entry(out, fix(out, mode), [])
    case Link(mode, target) => Entry(out, fix(out, mode), if |target| > LINK_MAX then target[..LINK_MAX] else target)
  }

  /** _archive: the entries for a path, each directory before its contents; None when
      mkbootfs gives up. */
  ghost function Walk(fs: Fs, p: Bytes, out: Bytes, fix: (Bytes, word) -> word): (r: Option<seq<Entry>>)
    decreases Depth(fs, p), 2, 0
  {
    if p !in fs || fs[p].Special? then None
    else if fs[p].Dir? then
      match WalkDir(fs, p, out, fix)
      case None => None
      case Some(es) => Some([EntryOf(fs[p], out, fix)] + es)
    else Some([EntryOf(fs[p], out, fix)])
  }

  /** _archive_dir. */
  ghost function WalkDir(fs: Fs, p: Bytes, out: Bytes, fix: (Bytes, word) -> word): (r: Option<seq<Entry>>)
    decreases Depth(fs, p), 1, 0
  {
    if p !in fs || !fs[p].Dir? then None else WalkNames(fs, p, out, Listing(fs[p].names), fix)
  }

  ghost function WalkNames(fs: Fs, p: Bytes, out: Bytes, names: seq<Bytes>, fix: (Bytes, word) -> word): (r: Option<seq<Entry>>)
    requires p in fs
    decreases Depth(fs, p), 0, |names|
  {
    if names == [] then Some([])
    else if Child(p, names[0]) !in fs then None
    else
      match Walk(fs, Child(p, names[0]), OutChild(out, names[0]), fix)
      case None => None
      case Some(es) =>
        match WalkNames(fs, p, out, names[1..], fix)
        case None => None
        case Some(more) => Some(es + more)
  }

  // --- what is in the archive ---

  /** The entry e is for what one reaches from p by the names in c, each of them kept. */
  ghost predicate Reached(fs: Fs, p: Bytes, out: Bytes, fix: (Bytes, word) -> word, c: seq<Bytes>, e: Entry)
    decreases |c|
  {
    if c == [] then p in fs && Describes(fs[p], out, fix, e)
    else Listed(fs, p, c[0]) && Reached(fs, Child(p, c[0]), OutChild(out, c[0]), fix, c[1..], e)
  }

  /** The entry e is for a path below p. */
  ghost predicate InTree(fs: Fs, p: Bytes, out: Bytes, fix: (Bytes, word) -> word, e: Entry)
  {
    exists c :: c != [] && Reached(fs, p, out, fix, c, e)
  }

  ghost predicate Listed(fs: Fs, p: Bytes, name: Bytes)
  {
    && p in fs && fs[p].Dir? && name in fs[p].names
    && (name == [] || name[0] != 46) && name != [114, 111, 111, 116]
  }

  lemma DescribedOnce(i: Inode, out: Bytes, fix: (Bytes, word) -> word, e: Entry)
    requires Describes(i, out, fix, e)
    ensures e == EntryOf(i, out, fix)
  {
  }

  lemma ListingMember(names: seq<Bytes>, x: Bytes)
    ensures x in Listing(names) <==> x in names && Kept(x)
  {
    SortProps(Visible(names));
    VisibleCount(names, x);
    assert x in Listing(names) <==> x in multiset(Listing(names));
  }

  /** Every entry is for something that is there. */
  lemma {:induction false} WalkSound(fs: Fs, p: Bytes, out: Bytes, fix: (Bytes, word) -> word, e: Entry) returns (c: seq<Bytes>)
    requires Walk(fs, p, out, fix).Some? && e in Walk(fs, p, out, fix).value
    ensures Reached(fs, p, out, fix, c, e)
    decreases Depth(fs, p), 1, 0
  {
    hide EntryOf, Depth, Listing;
    if e == EntryOf(fs[p], out, fix) {
      c := [];
    } else {
      c := NamesSound(fs, p, out, Listing(fs[p].names), fix, e);
      ListingMember(fs[p].names, c[0]);
    }
  }

  lemma {:induction false} NamesSound(fs: Fs, p: Bytes, out: Bytes, names: seq<Bytes>, fix: (Bytes, word) -> word, e: Entry)
    returns (c: seq<Bytes>)
    requires p in fs && WalkNames(fs, p, out, names, fix).Some? && e in WalkNames(fs, p, out, names, fix).value
    ensures c != [] && c[0] in names && Reached(fs, Child(p, c[0]), OutChild(out, c[0]), fix, c[1..], e)
    decreases Depth(fs, p), 0, |names|
  {
    hide EntryOf, Walk;
    var n := names[0];
    if e in Walk(fs, Child(p, n), OutChild(out, n), fix).value {
      var rest := WalkSound(fs, Child(p, n), OutChild(out, n), fix, e);
      c := [n] + rest;
      assert c[1..] == rest;
    } else {
      c := NamesSound(fs, p, out, names[1..], fix, e);
    }
  }

  /** Everything that is there has its entry. */
  lemma {:induction false} WalkComplete(fs: Fs, p: Bytes, out: Bytes, fix: (Bytes, word) -> word, c: seq<Bytes>, e: Entry)
    requires Walk(fs, p, out, fix).Some? && Reached(fs, p, out, fix, c, e)
    ensures e in Walk(fs, p, out, fix).value
    decreases |c|, 1, 0
  {
    hide EntryOf, Depth, Listing, Describes;
    if c == [] {
      DescribedOnce(fs[p], out, fix, e);
    } else {
      ListingMember(fs[p].names, c[0]);
      NamesComplete(fs, p, out, Listing(fs[p].names), fix, c, e);
    }
  }

  lemma {:induction false} NamesComplete(fs: Fs, p: Bytes, out: Bytes, names: seq<Bytes>, fix: (Bytes, word) -> word,
                                         c: seq<Bytes>, e: Entry)
    requires p in fs && WalkNames(fs, p, out, names, fix).Some? && c != [] && c[0] in names
    requires Reached(fs, Child(p, c[0]), OutChild(out, c[0]), fix, c[1..], e)
    ensures e in WalkNames(fs, p, out, names, fix).value
    decreases |c|, 0, |names|
  {
    hide EntryOf, Walk, Reached;
    if c[0] == names[0] {
      WalkComplete(fs, Child(p, c[0]), OutChild(out, c[0]), fix, c[1..], e);
    } else {
      NamesComplete(fs, p, out, names[1..], fix, c, e);
    }
  }

  lemma ReachedStep(fs: Fs, p: Bytes, out: Bytes, fix: (Bytes, word) -> word, c: seq<Bytes>, e: Entry)
    requires c != []
    ensures Reached(fs, p, out, fix, c, e)
       <==> Listed(fs, p, c[0]) && Reached(fs, Child(p, c[0]), OutChild(out, c[0]), fix, c[1..], e)
  {
  }

  /** The archive of a directory has an entry exactly for each path below it that only kept
      names lead to. */
  lemma ArchiveHoldsTree(fs: Fs, p: Bytes, out: Bytes, fix: (Bytes, word) -> word, e: Entry)
    requires WalkDir(fs, p, out, fix).Some?
    ensures e in WalkDir(fs, p, out, fix).value <==> InTree(fs, p, out, fix, e)
  {
    hide Walk, WalkNames, Listing, Reached;
    var names := Listing(fs[p].names);
    if e in WalkDir(fs, p, out, fix).value {
      var c := NamesSound(fs, p, out, names, fix, e);
      ListingMember(fs[p].names, c[0]);
      ReachedStep(fs, p, out, fix, c, e);
    }
    forall c | c != [] && Reached(fs, p, out, fix, c, e) ensures e in WalkDir(fs, p, out, fix).value {
      ReachedStep(fs, p, out, fix, c, e);
      ListingMember(fs[p].names, c[0]);
      NamesComplete(fs, p, out, names, fix, c, e);
    }
  }

  // --- when mkbootfs gives up ---

  /** The names in c, each of them kept, lead from p to what is missing or is neither a file,
      a directory nor a link. */
  ghost predicate LeadsNowhere(fs: Fs, p: Bytes, c: seq<Bytes>)
    decreases |c|
  {
    if c == [] then p !in fs || fs[p].Special?
    else Listed(fs, p, c[0]) && LeadsNowhere(fs, Child(p, c[0]), c[1..])
  }

  /** p is no directory, or something below it cannot be archived. */
  ghost predicate Unfit(fs: Fs, p: Bytes)
  {
    p !in fs || !fs[p].Dir? || exists c :: c != [] && LeadsNowhere(fs, p, c)
  }

  lemma {:induction false} WalkFails(fs: Fs, p: Bytes, out: Bytes, fix: (Bytes, word) -> word) returns (c: seq<Bytes>)
    requires Walk(fs, p, out, fix).None?
    ensures LeadsNowhere(fs, p, c)
    decreases Depth(fs, p), 1, 0
  {
    hide EntryOf, Depth, Listing;
    c := [];
    if p in fs && fs[p].Dir? {
      c := NamesFail(fs, p, out, Listing(fs[p].names), fix);
      ListingMember(fs[p].names, c[0]);
    }
  }

  lemma {:induction false} NamesFail(fs: Fs, p: Bytes, out: Bytes, names: seq<Bytes>, fix: (Bytes, word) -> word)
    returns (c: seq<Bytes>)
    requires p in fs && WalkNames(fs, p, out, names, fix).None?
    ensures c != [] && c[0] in names && LeadsNowhere(fs, Child(p, c[0]), c[1..])
    decreases Depth(fs, p), 0, |names|
  {
    hide EntryOf, Walk;
    var n := names[0];
    if Child(p, n) !in fs {
      c := [n];
    } else if Walk(fs, Child(p, n), OutChild(out, n), fix).None? {
      var rest := WalkFails(fs, Child(p, n), OutChild(out, n), fix);
      c := [n] + rest;
      assert c[1..] == rest;
    } else {
      c := NamesFail(fs, p, out, names[1..], fix);
    }
  }

  lemma {:induction false} NowhereFails(fs: Fs, p: Bytes, out: Bytes, fix: (Bytes, word) -> word, c: seq<Bytes>)
    requires LeadsNowhere(fs, p, c)
    ensures Walk(fs, p, out, fix).None?
    decreases |c|, 1, 0
  {
    hide EntryOf, Depth, Listing;
    if c != [] {
      ListingMember(fs[p].names, c[0]);
      NowhereNames(fs, p, out, Listing(fs[p].names), fix, c);
    }
  }

  lemma {:induction false} NowhereNames(fs: Fs, p: Bytes, out: Bytes, names: seq<Bytes>, fix: (Bytes, word) -> word,
                                        c: seq<Bytes>)
    requires p in fs && c != [] && c[0] in names && LeadsNowhere(fs, Child(p, c[0]), c[1..])
    ensures WalkNames(fs, p, out, names, fix).None?
    decreases |c|, 0, |names|
  {
    hide EntryOf, Walk, LeadsNowhere;
    if c[0] == names[0] {
      NowhereFails(fs, Child(p, c[0]), OutChild(out, c[0]), fix, c[1..]);
    } else {
      NowhereNames(fs, p, out, names[1..], fix, c);
    }
  }

  /** The walk of a directory fails exactly if there is none, or kept names lead from it to
      something that cannot be archived. */
  lemma WalkFailsIff(fs: Fs, p: Bytes, out: Bytes, fix: (Bytes, word) -> word)
    ensures WalkDir(fs, p, out, fix).None? <==> Unfit(fs, p)
  {
    hide Walk, WalkNames, Listing;
    if p in fs && fs[p].Dir? {
      var names := Listing(fs[p].names);
      if WalkDir(fs, p, out, fix).None? {
        var c := NamesFail(fs, p, out, names, fix);
        ListingMember(fs[p].names, c[0]);
        assert LeadsNowhere(fs, p, c);
      }
      if c :| c != [] && LeadsNowhere(fs, p, c) {
        ListingMember(fs[p].names, c[0]);
        NowhereNames(fs, p, out, names, fix, c);
      }
    }
  }

  /** A reader gets exactly the tree's entries back, unless a path in it is archived under
      the trailer's name. */
  lemma TreeRoundTrip(fs: Fs, p: Bytes, out: Bytes, fix: (Bytes, word) -> word, mode: word)
    requires WalkDir(fs, p, out, fix).Some?
    requires forall e :: e in WalkDir(fs, p, out, fix).value ==> Fits(e) && |e.data| < WORD
    ensures var es := WalkDir(fs, p, out, fix).value;
            Read(Archive(es, mode), 0) == Some(es) <==> forall e :: InTree(fs, p, out, fix, e) ==> e.name != TRAILER
  {
    hide WalkDir, Archive, Read, InTree;
    var es := WalkDir(fs, p, out, fix).value;
    ArchiveRoundTrip(es, mode);
    forall e ensures e in es <==> InTree(fs, p, out, fix, e) {
      ArchiveHoldsTree(fs, p, out, fix, e);
    }
  }

  // --- one entry for each path ---

  ghost predicate Distinct(names: seq<Bytes>)
  {
    forall x :: multiset(names)[x] <= 1
  }

  /** What every file system promises: a directory lists a name once, and no name is empty or
      has a slash in it. */
  ghost predicate Tidy(fs: Fs)
  {
    forall p :: p in fs && fs[p].Dir? ==> Distinct(fs[p].names) && AllPlain(fs[p].names)
  }

  predicate AllPlain(names: seq<Bytes>)
  {
    forall n :: n in names ==> n != [] && SLASH !in n
  }

  /** A name in the archive is that of `out` or of something below it. */
  predicate Under(out: Bytes, name: Bytes)
  {
    name == out || out + [SLASH] <= name
  }

  ghost predicate NamesUnder(out: Bytes, es: seq<Entry>)
  {
    forall e :: e in es ==> Under(out, e.name)
  }

  ghost predicate NamesBelow(out: Bytes, names: seq<Bytes>, es: seq<Entry>)
  {
    forall e :: e in es ==> exists n :: n in names && Under(OutChild(out, n), e.name)
  }

  predicate OneEach(es: seq<Entry>)
  {
    forall i, j :: 0 <= i < j < |es| ==> es[i].name != es[j].name
  }

  lemma ListingTidy(names: seq<Bytes>)
    requires Distinct(names) && AllPlain(names)
    ensures Distinct(Listing(names)) && AllPlain(Listing(names))
  {
    SortProps(Visible(names));
    forall x ensures multiset(Listing(names))[x] <= 1 { VisibleCount(names, x); }
  }

  lemma DistinctTail(names: seq<Bytes>)
    requires names != [] && Distinct(names)
    ensures Distinct(names[1..]) && names[0] !in names[1..]
  {
    assert names == [names[0]] + names[1..];
    assert multiset(names)[names[0]] == 1 + multiset(names[1..])[names[0]];
    assert names[0] in names[1..] <==> names[0] in multiset(names[1..]);
    forall x ensures multiset(names[1..])[x] <= 1 { assert multiset(names)[x] <= 1; }
  }

  /** What is below a child is below its directory, and longer. */
  lemma UnderChild(out: Bytes, n: Bytes, name: Bytes)
    requires n != [] && Under(OutChild(out, n), name)
    ensures name != out && |name| > |out| && (out != [] ==> Under(out, name))
  {
    if out != [] {
      assert out + [SLASH] <= OutChild(out, n) <= name;
    }
  }

  /** Different children have nothing in common. */
  lemma ChildrenApart(out: Bytes, n: Bytes, m: Bytes, name: Bytes)
    requires SLASH !in n && SLASH !in m && Under(OutChild(out, n), name) && Under(OutChild(out, m), name)
    ensures n == m
  {
    var base := if out == [] then [] else out + [SLASH];
    assert OutChild(out, n) == base + n && OutChild(out, m) == base + m;
    StartsWith(base, n, name);
    StartsWith(base, m, name);
  }

  lemma StartsWith(base: Bytes, n: Bytes, name: Bytes)
    requires Under(base + n, name)
    ensures |base + n| <= |name| && name[|base|..][..|n|] == n
    ensures |base + n| < |name| ==> name[|base|..][|n|] == SLASH
  {
    assert name[..|base + n|] == base + n;
    if |base + n| < |name| {
      assert name[..|base + n| + 1] == base + n + [SLASH];
      assert name[|base + n|] == (base + n + [SLASH])[|base + n|];
    }
  }

  lemma {:induction false} WalkOneEach(fs: Fs, p: Bytes, out: Bytes, fix: (Bytes, word) -> word)
    requires Tidy(fs) && out != [] && Walk(fs, p, out, fix).Some?
    ensures NamesUnder(out, Walk(fs, p, out, fix).value) && OneEach(Walk(fs, p, out, fix).value)
    decreases Depth(fs, p), 1, 0
  {
    hide Listing, Depth, WalkNames, Tidy;
    if fs[p].Dir? {
      var names := Listing(fs[p].names);
      TidyListing(fs, p);
      NamesOneEach(fs, p, out, names, fix);
      var es := WalkDir(fs, p, out, fix).value;
      forall e | e in es ensures Under(out, e.name) && e.name != out {
        var n :| n in names && Under(OutChild(out, n), e.name);
        UnderChild(out, n, e.name);
      }
    }
  }

  lemma TidyListing(fs: Fs, p: Bytes)
    requires Tidy(fs) && p in fs && fs[p].Dir?
    ensures Distinct(Listing(fs[p].names)) && AllPlain(Listing(fs[p].names))
  {
    ListingTidy(fs[p].names);
  }

  lemma {:induction false} NamesOneEach(fs: Fs, p: Bytes, out: Bytes, names: seq<Bytes>, fix: (Bytes, word) -> word)
    requires Tidy(fs) && p in fs && Distinct(names) && AllPlain(names) && WalkNames(fs, p, out, names, fix).Some?
    ensures NamesBelow(out, names, WalkNames(fs, p, out, names, fix).value)
    ensures OneEach(WalkNames(fs, p, out, names, fix).value)
    decreases Depth(fs, p), 0, |names|
  {
    hide Walk, Tidy, Under, Distinct;
    if names != [] {
      var n, rest := names[0], names[1..];
      DistinctTail(names);
      assert n in names && forall m :: m in rest ==> m in names;
      assert [n] + rest == names;
      var es := Walk(fs, Child(p, n), OutChild(out, n), fix).value;
      var more := WalkNames(fs, p, out, rest, fix).value;
      WalkOneEach(fs, Child(p, n), OutChild(out, n), fix);
      NamesOneEach(fs, p, out, rest, fix);
      JoinOneEach(out, n, rest, es, more);
    }
  }

  lemma JoinOneEach(out: Bytes, n: Bytes, rest: seq<Bytes>, es: seq<Entry>, more: seq<Entry>)
    requires AllPlain([n] + rest) && n !in rest
    requires NamesUnder(OutChild(out, n), es) && OneEach(es) && NamesBelow(out, rest, more) && OneEach(more)
    ensures NamesBelow(out, [n] + rest, es + more) && OneEach(es + more)
  {
    hide Under;
    forall e | e in es + more ensures exists m :: m in [n] + rest && Under(OutChild(out, m), e.name) {
      if e in es {
        assert n in [n] + rest;
      } else {
        var m :| m in rest && Under(OutChild(out, m), e.name);
        assert m in [n] + rest;
      }
    }
    forall e, e' | e in es && e' in more ensures e.name != e'.name {
      var m :| m in rest && Under(OutChild(out, m), e'.name);
      assert n in [n] + rest && m in [n] + rest;
      if e.name == e'.name { ChildrenApart(out, n, m, e.name); }
    }
    assert forall i :: 0 <= i < |es| ==> es[i] in es;
    assert forall j :: 0 <= j < |more| ==> more[j] in more;
  }

  /** No two entries of an archive have the same name: with ArchiveHoldsTree, each path has
      exactly one. */
  lemma OneEntryPerPath(fs: Fs, p: Bytes, out: Bytes, fix: (Bytes, word) -> word)
    requires Tidy(fs) && WalkDir(fs, p, out, fix).Some?
    ensures OneEach(WalkDir(fs, p, out, fix).value)
  {
    TidyListing(fs, p);
    NamesOneEach(fs, p, out, Listing(fs[p].names), fix);
  }

  // --- directories before their contents ---

  predicate Before(es: seq<Entry>, d: Entry, e: Entry)
  {
    exists i, j :: 0 <= i < j < |es| && es[i] == d && es[j] == e
  }

  lemma BeforeWithin(l: seq<Entry>, es: seq<Entry>, r: seq<Entry>, d: Entry, e: Entry)
    requires Before(es, d, e)
    ensures Before(l + es + r, d, e)
  {
    var i, j :| 0 <= i < j < |es| && es[i] == d && es[j] == e;
    assert (l + es + r)[|l| + i] == d && (l + es + r)[|l| + j] == e;
  }

  /** The entries of the names of a directory stand in the order of the names. */
  lemma {:induction false} NamesInOrder(fs: Fs, p: Bytes, out: Bytes, a: seq<Bytes>, b: seq<Bytes>, fix: (Bytes, word) -> word)
    requires p in fs && WalkNames(fs, p, out, a + b, fix).Some?
    ensures var first, second := WalkNames(fs, p, out, a, fix), WalkNames(fs, p, out, b, fix);
            first.Some? && second.Some? && WalkNames(fs, p, out, a + b, fix).value == first.value + second.value
    decreases |a|
  {
    hide Walk;
    if a == [] {
      assert a + b == b;
    } else {
      assert (a + b)[1..] == a[1..] + b;
      NamesInOrder(fs, p, out, a[1..], b, fix);
    }
  }

  /** The entries of one name stand together in those of its directory. */
  lemma {:induction false} NamesPart(fs: Fs, p: Bytes, out: Bytes, names: seq<Bytes>, fix: (Bytes, word) -> word, n: Bytes)
    returns (l: seq<Entry>, r: seq<Entry>)
    requires p in fs && WalkNames(fs, p, out, names, fix).Some? && n in names
    ensures var child := Walk(fs, Child(p, n), OutChild(out, n), fix);
            child.Some? && WalkNames(fs, p, out, names, fix).value == l + child.value + r
    decreases |names|
  {
    hide Walk;
    var first := Walk(fs, Child(p, names[0]), OutChild(out, names[0]), fix).value;
    if n == names[0] {
      l, r := [], WalkNames(fs, p, out, names[1..], fix).value;
    } else {
      var l1;
      l1, r := NamesPart(fs, p, out, names[1..], fix, n);
      l := first + l1;
    }
  }

  /** The entry of the directory that holds e, from one level above p or deeper. */
  lemma {:induction false} Holder(fs: Fs, p: Bytes, out: Bytes, fix: (Bytes, word) -> word, c: seq<Bytes>, e: Entry)
    returns (d: Entry)
    requires Walk(fs, p, out, fix).Some? && c != [] && Reached(fs, p, out, fix, c, e)
    ensures Reached(fs, p, out, fix, c[..|c| - 1], d) && Before(Walk(fs, p, out, fix).value, d, e)
    decreases |c|
  {
    hide EntryOf, Depth, Listing, WalkNames;
    var es := WalkDir(fs, p, out, fix).value;
    ListingMember(fs[p].names, c[0]);
    if |c| == 1 {
      d := EntryOf(fs[p], out, fix);
      NamesComplete(fs, p, out, Listing(fs[p].names), fix, c, e);
      var j :| 0 <= j < |es| && es[j] == e;
      assert ([d] + es)[0] == d && ([d] + es)[j + 1] == e;
    } else {
      d := HolderBelow(fs, p, out, fix, c, e);
      BeforeWithin([EntryOf(fs[p], out, fix)], es, [], d, e);
      assert [EntryOf(fs[p], out, fix)] + es + [] == [EntryOf(fs[p], out, fix)] + es;
    }
  }

  lemma {:induction false} HolderBelow(fs: Fs, p: Bytes, out: Bytes, fix: (Bytes, word) -> word, c: seq<Bytes>, e: Entry)
    returns (d: Entry)
    requires WalkDir(fs, p, out, fix).Some? && |c| >= 2 && Reached(fs, p, out, fix, c, e)
    ensures Reached(fs, p, out, fix, c[..|c| - 1], d) && Before(WalkDir(fs, p, out, fix).value, d, e)
    decreases |c|, 0
  {
    hide EntryOf, Depth, Listing, Walk, WalkNames, Before;
    ListingMember(fs[p].names, c[0]);
    var l, r := NamesPart(fs, p, out, Listing(fs[p].names), fix, c[0]);
    d := Holder(fs, Child(p, c[0]), OutChild(out, c[0]), fix, c[1..], e);
    assert c[..|c| - 1][1..] == c[1..][..|c| - 2];
    BeforeWithin(l, Walk(fs, Child(p, c[0]), OutChild(out, c[0]), fix).value, r, d, e);
  }

  /** Each directory below the top comes before everything in it. */
  lemma DirectoryFirst(fs: Fs, p: Bytes, out: Bytes, fix: (Bytes, word) -> word, c: seq<Bytes>, e: Entry)
    requires WalkDir(fs, p, out, fix).Some? && |c| >= 2 && Reached(fs, p, out, fix, c, e)
    ensures exists d :: Reached(fs, p, out, fix, c[..|c| - 1], d) && Before(WalkDir(fs, p, out, fix).value, d, e)
  {
    var d := HolderBelow(fs, p, out, fix, c, e);
  }

  // --- independence of the order of listing ---

  predicate SameInode(i: Inode, j: Inode)
  {
    if i.Dir? && j.Dir? then i.mode == j.mode && multiset(i.names) == multiset(j.names) else i == j
  }

  /** The same tree, with its directories listed in another order. */
  predicate SameTree(fs: Fs, fs': Fs)
  {
    fs.Keys == fs'.Keys && forall p :: p in fs ==> SameInode(fs[p], fs'[p])
  }

  lemma {:induction false} WalkSame(fs: Fs, fs': Fs, p: Bytes, out: Bytes, fix: (Bytes, word) -> word)
    requires SameTree(fs, fs')
    ensures Walk(fs, p, out, fix) == Walk(fs', p, out, fix)
    decreases Depth(fs, p), 2, 0
  {
    if p in fs && fs[p].Dir? { WalkDirSame(fs, fs', p, out, fix); }
  }

  /** Any two listings of the same tree give the same entries in the same order. */
  lemma {:induction false} WalkDirSame(fs: Fs, fs': Fs, p: Bytes, out: Bytes, fix: (Bytes, word) -> word)
    requires SameTree(fs, fs')
    ensures WalkDir(fs, p, out, fix) == WalkDir(fs', p, out, fix)
    decreases Depth(fs, p), 1, 0
  {
    if p in fs && fs[p].Dir? {
      assert SameInode(fs[p], fs'[p]);
      VisiblePermutation(fs[p].names, fs'[p].names);
      WalkNamesSame(fs, fs', p, out, Listing(fs[p].names), fix);
    }
  }

  lemma {:induction false} WalkNamesSame(fs: Fs, fs': Fs, p: Bytes, out: Bytes, names: seq<Bytes>, fix: (Bytes, word) -> word)
    requires SameTree(fs, fs') && p in fs
    ensures WalkNames(fs, p, out, names, fix) == WalkNames(fs', p, out, names, fix)
    decreases Depth(fs, p), 0, |names|
  {
    if names != [] && Child(p, names[0]) in fs {
      WalkSame(fs, fs', Child(p, names[0]), OutChild(out, names[0]), fix);
      WalkNamesSame(fs, fs', p, out, names[1..], fix);
    }
  }

  /** So two enumerations of one tree give byte-identical archives. */
  lemma ArchiveIgnoresReaddirOrder(fs: Fs, fs': Fs, p: Bytes, out: Bytes, fix: (Bytes, word) -> word, mode: word)
    requires SameTree(fs, fs') && WalkDir(fs, p, out, fix).Some?
    requires forall e :: e in WalkDir(fs, p, out, fix).value ==> Fits(e)
    ensures var es, es' := WalkDir(fs, p, out, fix), WalkDir(fs', p, out, fix);
            es'.Some? && es' == es && Archive(es.value, mode) == Archive(es'.value, mode)
  {
    WalkDirSame(fs, fs', p, out, fix);
  }

  // --- the walk, on the two path buffers ---

  /** The C string in a buffer. */
  function CStr(bs: Bytes): (s: Bytes)
  {
    if bs == [] || bs[0] == 0 then [] else [bs[0]] + CStr(bs[1..])
  }

  /** The buffer starts with the path p and its NUL. */
  ghost predicate Shows(bs: Bytes, p: Bytes)
  {
    |p| < |bs| && bs[..|p|] == p && bs[|p|] == 0 && 0 !in p
  }

  lemma {:induction false} ShowsCStr(bs: Bytes, p: Bytes)
    requires Shows(bs, p)
    ensures CStr(bs) == p
  {
    if p != [] {
      assert bs[0] == bs[..|p|][0] && bs[1..][..|p| - 1] == bs[..|p|][1..];
      ShowsCStr(bs[1..], p[1..]);
    }
  }

  /** Copying a name and its NUL behind the path and a separator. */
  method Append(buf: array<byte>, n: nat, sep: Bytes, name: Bytes, ghost p: Bytes)
    requires Shows(buf[..], p) && n == |p| && 0 !in name && 0 !in sep && n + |sep| + |name| < buf.Length
    modifies buf
    ensures Shows(buf[..], p + sep + name)
  {
    var add := sep + name;
    forall k | 0 <= k < |add| {
      buf[n + k] := add[k];
    }
    buf[n + |add|] := 0;
    assert buf[..n] == old(buf[..n]) == p;
    assert buf[n..n + |add|] == add;
    assert buf[..n + |add|] == p + sep + name;
  }

  /** The path is cut back to its first n bytes. */
  method Cut(buf: array<byte>, n: nat, ghost p: Bytes)
    requires Shows(buf[..], p) && n <= |p|
    modifies buf
    ensures Shows(buf[..], p[..n])
  {
    assert buf[..n] == buf[..|p|][..n];
    buf[n] := 0;
  }

  /** The log after a walk that went well. */
  ghost predicate Walked(before: seq<Entry>, r: Option<seq<Entry>>, ok: bool, log: seq<Entry>)
  {
    ok == r.Some? && (ok ==> log == before + r.value)
  }

  /** Going on from log to r' completes r from before. */
  ghost predicate Continues(before: seq<Entry>, r: Option<seq<Entry>>, log: seq<Entry>, r': Option<seq<Entry>>)
  {
    r.Some? == r'.Some? && (r.Some? ==> before + r.value == log + r'.value)
  }

  /** One more name of a directory. */
  lemma WalkedNext(fs: Fs, p: Bytes, out: Bytes, names: seq<Bytes>, fix: (Bytes, word) -> word,
                   before: seq<Entry>, ok: bool, log: seq<Entry>)
    requires p in fs && names != [] && Child(p, names[0]) in fs
    requires Walked(before, Walk(fs, Child(p, names[0]), OutChild(out, names[0]), fix), ok, log)
    ensures !ok ==> WalkNames(fs, p, out, names, fix).None?
    ensures ok ==> Continues(before, WalkNames(fs, p, out, names, fix), log, WalkNames(fs, p, out, names[1..], fix))
  {
    hide Walk, Child, OutChild;
  }

  lemma WalkedEnd(fs: Fs, p: Bytes, out: Bytes, names: seq<Bytes>, fix: (Bytes, word) -> word, log: seq<Entry>)
    requires p in fs && names == []
    ensures WalkNames(fs, p, out, names, fix) == Some([]) && log + [] == log
  {
  }

  lemma EjectAllSnoc(es: seq<Entry>, e: Entry)
    requires Fits(e) && forall e' :: e' in es ==> Fits(e')
    ensures EjectAll(es + [e]) == Eject(EjectAll(es), (FIRST_INODE + |es|) % WORD, e)
    ensures ((FIRST_INODE + |es|) % WORD + 1) % WORD == (FIRST_INODE + |es + [e]|) % WORD
  {
    hide Eject;
    assert (es + [e])[..|es|] == es;
  }

  /** mkbootfs itself: the writer, the entries ejected so far, and the path buffers. */
  class Archiver {
    const w: Writer
    const inb: array<byte>
    const outb: array<byte>
    const fix: (Bytes, word) -> word
    ghost var log: seq<Entry>

    ghost predicate Valid()
      reads this, w
    {
      && inb != outb
      && w.Valid() && (forall e :: e in log ==> Fits(e))
      && w.out == EjectAll(log) && w.nextInode == (FIRST_INODE + |log|) % WORD
    }

    constructor (size: nat, fix: (Bytes, word) -> word)
      ensures Valid() && log == [] && fresh(w) && fresh(inb) && fresh(outb)
      ensures inb.Length == outb.Length == size && this.fix == fix
    {
      w := new Writer();
      inb := new byte[size](_ => 0);
      outb := new byte[size](_ => 0);
      this.fix := fix;
      log := [];
    }

    /** The buffers show these two paths, and they have room for every path of the file
        system when the walk goes on from here. */
    ghost predicate At(fs: Fs, p: Bytes, out: Bytes)
      reads inb, outb
    {
      && Shows(inb[..], p) && Shows(outb[..], out) && outb.Length < WORD - 1
      && forall q :: q in fs ==> |q| < inb.Length && |q| + |out| - |p| < outb.Length
    }

    method Put(e: Entry)
      requires Valid() && Fits(e)
      modifies w, this`log
      ensures Valid() && log == old(log) + [e]
    {
      hide EjectAll, Eject;
      EjectAllSnoc(log, e);
      w.Put(e);
      log := log + [e];
    }

    /** _eject, with the name that the buffer holds; its length is always the one that was
        carried along, so the program does not die with "ACK!". */
    method EjectHere(i: Inode, olen: nat, ghost out: Bytes) returns (agree: bool)
      requires Valid() && Shows(outb[..], out) && olen == |out| && !i.Special? && outb.Length < WORD - 1
      modifies w, this`log
      ensures Valid() && agree && log == old(log) + [EntryOf(i, out, fix)]
      ensures Describes(i, out, fix, log[|old(log)|])
    {
      hide Valid;
      ShowsCStr(outb[..], out);
      var name := CStr(outb[..]);
      Put(EntryOf(i, name, fix));
      agree := |name| == olen;
    }

    /** _archive. */
    method ArchiveOne(fs: Fs, ilen: nat, olen: nat, ghost p: Bytes, ghost out: Bytes) returns (ok: bool)
      requires Valid() && FsOk(fs) && At(fs, p, out) && ilen == |p| && olen == |out| && p in fs
      modifies w, this`log, inb, outb
      ensures Valid() && Walked(old(log), Walk(fs, p, out, fix), ok, log)
      ensures ok ==> At(fs, p, out)
      decreases Depth(fs, p), 2, 0
    {
      hide FsOk, Valid, WalkDir, Longest, Depth, EntryOf;
      ShowsCStr(inb[..], p);
      var i := fs[CStr(inb[..])];
      if i.Special? { return false; }
      ok := EjectHere(i, olen, out);
      if ok && i.Dir? {
        ok := ArchiveDir(fs, ilen, olen, p, out);
      }
    }

    /** _archive_dir: the buffers are as they were after every entry. */
    method ArchiveDir(fs: Fs, ilen: nat, olen: nat, ghost p: Bytes, ghost out: Bytes) returns (ok: bool)
      requires Valid() && FsOk(fs) && At(fs, p, out) && ilen == |p| && olen == |out| && p in fs && fs[p].Dir?
      modifies w, this`log, inb, outb
      ensures Valid() && Walked(old(log), WalkDir(fs, p, out, fix), ok, log)
      ensures ok ==> At(fs, p, out)
      decreases Depth(fs, p), 1, 0
    {
      hide Valid, Walk, WalkNames, Longest, Depth, Sort, Visible;
      ShowsCStr(inb[..], p);
      var names := Listing(fs[CStr(inb[..])].names);
      ghost var before := log;
      var k := 0;
      ok := true;
      while k < |names|
        invariant 0 <= k <= |names| && Valid() && At(fs, p, out)
        invariant Continues(before, WalkNames(fs, p, out, names, fix), log, WalkNames(fs, p, out, names[k..], fix))
      {
        assert names[k] in names;
        ghost var here := log;
        ok := ArchiveName(fs, ilen, olen, names[k], p, out);
        assert names[k..][0] == names[k] && names[k..][1..] == names[k + 1..];
        WalkedNext(fs, p, out, names[k..], fix, here, ok, log);
        if !ok {
          return;
        }
        k := k + 1;
      }
      WalkedEnd(fs, p, out, names[k..], fix, log);
    }

    /** One round of the loop: the buffers are extended, and cut back. */
    method ArchiveName(fs: Fs, ilen: nat, olen: nat, name: Bytes, ghost p: Bytes, ghost out: Bytes) returns (ok: bool)
      requires Valid() && FsOk(fs) && At(fs, p, out) && ilen == |p| && olen == |out|
      requires p in fs && fs[p].Dir? && name in fs[p].names
      modifies w, this`log, inb, outb
      ensures Valid() && Walked(old(log), Walk(fs, Child(p, name), OutChild(out, name), fix), ok, log)
      ensures ok ==> At(fs, p, out)
      decreases Depth(fs, p), 0, 0
    {
      hide Walk, EjectAll, Shows;
      assert n: Child(p, name) in fs && name != [] && 0 !in name;
      var t := |name|;
      Append(inb, ilen, [SLASH], name, p);
      var sep := if olen > 0 then [SLASH] else [];
      Append(outb, olen, sep, name, out);
      ghost var p', out' := Child(p, name), OutChild(out, name);
      assert p + [SLASH] + name == p' && out + sep + name == out';
      ok := ArchiveOne(fs, ilen + 1 + t, olen + |sep| + t, p', out');
      if ok {
        assert p'[..ilen] == p && out'[..olen] == out;
        Cut(inb, ilen, p');
        Cut(outb, olen, out');
      }
    }

    /** archive: the whole of what `start` holds, under the archive name `prefix`. */
    method ArchiveTree(fs: Fs, start: Bytes, prefix: Bytes) returns (ok: bool)
      requires Valid() && FsOk(fs) && start in fs && fs[start].Dir? && 0 !in start && 0 !in prefix
      requires |prefix| < outb.Length < WORD - 1
      requires forall q :: q in fs ==> |q| < inb.Length && |q| + |prefix| - |start| < outb.Length
      modifies w, this`log, inb, outb
      ensures Valid() && Walked(old(log), WalkDir(fs, start, prefix, fix), ok, log)
    {
      hide EjectAll, WalkDir;
      inb[0], outb[0] := 0, 0;
      Append(inb, 0, [], start, []);
      Append(outb, 0, [], prefix, []);
      assert [] + [] + start == start && [] + [] + prefix == prefix;
      ok := ArchiveDir(fs, |start|, |prefix|, start, prefix);
    }

    /** The same for any argument: opendir fails on what is not a directory. */
    method ArchiveArg(fs: Fs, start: Bytes, prefix: Bytes) returns (ok: bool)
      requires Valid() && FsOk(fs) && inb.Length == outb.Length < WORD - 1
      requires FitsBuffers(fs, (start, prefix), inb.Length)
      modifies w, this`log, inb, outb
      ensures Valid() && Walked(old(log), WalkDir(fs, start, prefix, fix), ok, log)
    {
      hide Valid;
      if start !in fs || !fs[start].Dir? { return false; }
      ok := ArchiveTree(fs, start, prefix);
    }

    /** _eject_trailer. */
    method Finish()
      requires Valid()
      modifies w
      ensures w.out == Archive(log, fix(TRAILER, 0))
    {
      hide EjectAll, Eject;
      w.Put(Entry(TRAILER, fix(TRAILER, 0), []));
      w.Pad(256);
    }
  }

  // --- the program ---

  /** The entries of several trees, each a directory and a prefix, one after the other. */
  ghost function WalkArgs(fs: Fs, args: seq<(Bytes, Bytes)>, fix: (Bytes, word) -> word): (r: Option<seq<Entry>>)
  {
    if args == [] then Some([])
    else
      var (start, prefix) := args[|args| - 1];
      match WalkArgs(fs, args[..|args| - 1], fix)
      case None => None
      case Some(es) =>
        match WalkDir(fs, start, prefix, fix)
        case None => None
        case Some(more) => Some(es + more)
  }

  lemma {:induction false} WalkArgsFront(fs: Fs, args: seq<(Bytes, Bytes)>, fix: (Bytes, word) -> word, i: nat)
    requires i <= |args| && WalkArgs(fs, args[..i], fix).None?
    ensures WalkArgs(fs, args, fix).None?
    decreases |args|
  {
    hide WalkDir;
    if i < |args| {
      assert args[..|args| - 1][..i] == args[..i];
      WalkArgsFront(fs, args[..|args| - 1], fix, i);
    } else {
      assert args[..i] == args;
    }
  }

  lemma {:induction false} ArgsFailIff(fs: Fs, args: seq<(Bytes, Bytes)>, fix: (Bytes, word) -> word)
    ensures WalkArgs(fs, args, fix).None? <==> exists a :: a in args && Unfit(fs, a.0)
  {
    hide WalkDir, Unfit;
    if args != [] {
      var front, last := args[..|args| - 1], args[|args| - 1];
      assert args == front + [last];
      ArgsFailIff(fs, front, fix);
      WalkFailsIff(fs, last.0, last.1, fix);
    }
  }

  /** The buffers have room for every path of the file system below this directory. */
  ghost predicate FitsBuffers(fs: Fs, arg: (Bytes, Bytes), size: nat)
  {
    && 0 !in arg.0 && 0 !in arg.1 && |arg.0| < size && |arg.1| < size
    && forall q :: q in fs ==> |q| < size && |q| + |arg.1| - |arg.0| < size
  }

  /** An entry of the archive is for a path below one of the directories. */
  lemma {:induction false} ArgsHold(fs: Fs, args: seq<(Bytes, Bytes)>, fix: (Bytes, word) -> word, e: Entry)
    requires WalkArgs(fs, args, fix).Some?
    ensures e in WalkArgs(fs, args, fix).value <==> exists a :: a in args && InTree(fs, a.0, a.1, fix, e)
  {
    hide WalkDir, InTree;
    if args != [] {
      var front, last := args[..|args| - 1], args[|args| - 1];
      ArgsHold(fs, front, fix, e);
      ArchiveHoldsTree(fs, last.0, last.1, fix, e);
      assert args == front + [last];
    }
  }

  /** A reader gets exactly the entries of all the trees back from the image, unless a path is
      archived under the trailer's name. */
  lemma ImageRoundTrip(fs: Fs, args: seq<(Bytes, Bytes)>, fix: (Bytes, word) -> word)
    requires WalkArgs(fs, args, fix).Some?
    requires forall e :: e in WalkArgs(fs, args, fix).value ==> Fits(e) && |e.data| < WORD
    ensures var es := WalkArgs(fs, args, fix).value;
            var same := Read(Archive(es, fix(TRAILER, 0)), 0) == Some(es);
            same <==> forall a, e :: a in args && InTree(fs, a.0, a.1, fix, e) ==> e.name != TRAILER
  {
    hide WalkArgs, Archive, Read, InTree;
    var es := WalkArgs(fs, args, fix).value;
    ArchiveRoundTrip(es, fix(TRAILER, 0));
    forall e ensures e in es <==> exists a :: a in args && InTree(fs, a.0, a.1, fix, e) {
      ArgsHold(fs, args, fix, e);
    }
  }

  /** So what is read from the image is exactly an entry for each path below one of the
      directories that only kept names lead to, with its name, mode and data. */
  lemma ImageContents(fs: Fs, args: seq<(Bytes, Bytes)>, fix: (Bytes, word) -> word)
    requires WalkArgs(fs, args, fix).Some?
    requires forall e :: e in WalkArgs(fs, args, fix).value ==> Fits(e) && |e.data| < WORD && e.name != TRAILER
    ensures var r := Read(Archive(WalkArgs(fs, args, fix).value, fix(TRAILER, 0)), 0);
            r.Some? && forall e :: e in r.value <==> exists a :: a in args && InTree(fs, a.0, a.1, fix, e)
  {
    hide WalkArgs, Archive, Read, InTree;
    var es := WalkArgs(fs, args, fix).value;
    ArchiveRoundTrip(es, fix(TRAILER, 0));
    forall e ensures e in es <==> exists a :: a in args && InTree(fs, a.0, a.1, fix, e) {
      ArgsHold(fs, args, fix, e);
    }
  }

  /** The loop over the arguments, and the trailer. */
  method ArchiveArgs(fs: Fs, args: seq<(Bytes, Bytes)>, fix: (Bytes, word) -> word, size: nat) returns (ok: bool, image: Bytes)
    requires FsOk(fs) && size < WORD - 1 && forall a :: a in args ==> FitsBuffers(fs, a, size)
    ensures ok == (args != [] && WalkArgs(fs, args, fix).Some?)
    ensures ok ==> forall e :: e in WalkArgs(fs, args, fix).value ==> Fits(e)
    ensures ok ==> image == Archive(WalkArgs(fs, args, fix).value, fix(TRAILER, 0))
  {
    hide WalkDir, EjectAll;
    image := [];
    if args == [] { return false, []; }
    var a := new Archiver(size, fix);
    for i := 0 to |args|
      invariant fresh(a) && fresh(a.w) && fresh(a.inb) && fresh(a.outb) && a.fix == fix
      invariant a.Valid() && a.inb.Length == a.outb.Length == size
      invariant WalkArgs(fs, args[..i], fix) == Some(a.log)
    {
      assert FitsBuffers(fs, args[i], size);
      assert args[..i + 1][..i] == args[..i];
      ok := a.ArchiveArg(fs, args[i].0, args[i].1);
      if !ok {
        WalkArgsFront(fs, args, fix, i + 1);
        return false, [];
      }
    }
    assert args[..|args|] == args;
    a.Finish();
    ok, image := true, a.w.out;
  }

  /** mkbootfs with these directories: it writes the archive of all their entries, or gives
      up exactly if there is no directory or the walk of one fails. */
  method Image(fs: Fs, args: seq<(Bytes, Bytes)>, fix: (Bytes, word) -> word, size: nat) returns (ok: bool, image: Bytes)
    requires FsOk(fs) && size < WORD - 1 && forall a :: a in args ==> FitsBuffers(fs, a, size)
    ensures ok == (args != [] && forall a :: a in args ==> !Unfit(fs, a.0))
    ensures ok ==> WalkArgs(fs, args, fix).Some? && forall e :: e in WalkArgs(fs, args, fix).value ==> Fits(e)
    ensures ok ==> image == Archive(WalkArgs(fs, args, fix).value, fix(TRAILER, 0))
    ensures ok && (forall e :: e in WalkArgs(fs, args, fix).value ==> |e.data| < WORD && e.name != TRAILER) ==>
              && Read(image, 0).Some?
              && forall e :: e in Read(image, 0).value <==> exists a :: a in args && InTree(fs, a.0, a.1, fix, e)
  {
    hide WalkArgs, Archive, Read, InTree, Unfit;
    ArgsFailIff(fs, args, fix);
    ok, image := ArchiveArgs(fs, args, fix, size);
    if ok && forall e :: e in WalkArgs(fs, args, fix).value ==> |e.data| < WORD && e.name != TRAILER {
      ImageContents(fs, args, fix);
    }
  }
}
