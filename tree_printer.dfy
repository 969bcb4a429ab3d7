/** The directory-tree printer: an indented listing of a directory, one line
    per entry, that skips a fixed set of names and stops at a depth budget.
    The file system is a rose tree of entries kept in listing order; the
    printed text is the sequence of lines. */
module TreePrinter {
  import opened Common

  /** A file-system entry; a directory's entries are in the order the
      directory listing returns them. */
  datatype Entry = File(name: string) | Dir(name: string, entries: seq<Entry>)

  /** Names skipped at every level, files and directories alike. */
  const Excluded: set<string> := {"node_modules", "web", "assets", ".expo", ".git"}
  const DefaultDepth: int := 4

  const Branch: string := "├── "
  const Last: string := "└── "
  const Bar: string := "│   "
  const Blank: string := "    "

  /** The test applied to each listed name. */
  function Kept(excluded: set<string>): Entry -> bool
  {
    (e: Entry) => e.name !in excluded
  }

  /** The listing of a directory without the excluded names. */
  function Listing(dir: Entry, excluded: set<string>): (items: seq<Entry>)
    requires dir.Dir?
    ensures forall i :: 0 <= i < |items| ==> items[i] in dir.entries && items[i].name !in excluded
    ensures forall i :: 0 <= i < |dir.entries| && dir.entries[i].name !in excluded ==> dir.entries[i] in items
  {
    Filter(dir.entries, Kept(excluded))
  }

  /** The listing keeps the directory's own order. */
  lemma ListingKeepsOrder(dir: Entry, excluded: set<string>)
    requires dir.Dir?
    ensures IsSubsequence(Listing(dir, excluded), dir.entries)
  {
    FilterIsSubsequence(dir.entries, Kept(excluded));
  }

  /** One branch marker per item but the last, then one last marker; for an
      empty listing this is the single last marker, which zip never uses. */
  function Pointers(n: nat): (r: seq<string>)
    ensures |r| == if n == 0 then 1 else n
    ensures forall j :: 0 <= j < n ==> (r[j] == Branch <==> j < n - 1)
    ensures forall j :: 0 <= j < n ==> (r[j] == Last <==> j == n - 1)
  {
    seq(if n == 0 then 0 else n - 1, _ => Branch) + [Last]
  }

  /** The padding a marker hands down to the entries below it. */
  function Extension(pointer: string): string
  {
    if pointer == Branch then Bar else Blank
  }

  /** The lines printed for `dir` with the given prefix and depth budget. */
  function Tree(dir: Entry, excluded: set<string>, prefix: string, depth: int): seq<string>
    requires dir.Dir?
    decreases dir
  {
    if depth < 0 then []
    else
      var items := Listing(dir, excluded);
      Rows(dir, items, Pointers(|items|), 0, excluded, prefix, depth)
  }

  /** The loop over zip(pointers, items) from position i on. */
  function Rows(dir: Entry, items: seq<Entry>, pointers: seq<string>, i: nat,
                excluded: set<string>, prefix: string, depth: int): seq<string>
    requires dir.Dir? && forall k :: 0 <= k < |items| ==> items[k] in dir.entries
    decreases dir, |items| - i
  {
    if i >= |pointers| || i >= |items| then []
    else
      var item, pointer := items[i], pointers[i];
      [prefix + pointer + item.name]
      + (if item.Dir? then Tree(item, excluded, prefix + Extension(pointer), depth - 1) else [])
      + Rows(dir, items, pointers, i + 1, excluded, prefix, depth)
  }

  /** The script's own call: the root, no prefix, depth 4. */
  function PrintRoot(root: Entry): seq<string>
    requires root.Dir?
  {
    Tree(root, Excluded, "", DefaultDepth)
  }

  /** `print_tree`: emits the lines one by one, recursing into directories. */
  method PrintTree(dir: Entry, excluded: set<string>, prefix: string, depth: int) returns (out: seq<string>)
    requires dir.Dir?
    ensures out == Tree(dir, excluded, prefix, depth)
    decreases dir
  {
    out := [];
    if depth < 0 {
      return;
    }
    var items := Listing(dir, excluded);
    var pointers := Pointers(|items|);
    for i := 0 to |items|
      invariant out + Rows(dir, items, pointers, i, excluded, prefix, depth) == Tree(dir, excluded, prefix, depth)
    {
      var pointer, item := pointers[i], items[i];
      var line := [prefix + pointer + item.name];
      var sub: seq<string> := [];
      if item.Dir? {
        sub := PrintTree(item, excluded, prefix + Extension(pointer), depth - 1);
      }
      RowsStep(dir, items, i, excluded, prefix, depth, out, pointer, line, sub, Tree(dir, excluded, prefix, depth));
      out := out + line + sub;
    }
  }

  // ---------------------------------------------------------------------
  // An independent description of what is printed: the entries that get a
  // line, in depth-first listing order, and the shape of each line.

  /** The entries shown for `dir`, depth first, in listing order. */
  ghost function Shown(dir: Entry, excluded: set<string>, depth: int): seq<Entry>
    requires dir.Dir?
    decreases dir
  {
    if depth < 0 then [] else ShownFrom(dir, Listing(dir, excluded), 0, excluded, depth)
  }

  ghost function ShownFrom(dir: Entry, items: seq<Entry>, i: nat, excluded: set<string>, depth: int): seq<Entry>
    requires dir.Dir? && forall k :: 0 <= k < |items| ==> items[k] in dir.entries
    decreases dir, |items| - i
  {
    if i >= |items| then []
    else
      [items[i]]
      + (if items[i].Dir? then Shown(items[i], excluded, depth - 1) else [])
      + ShownFrom(dir, items, i + 1, excluded, depth)
  }

  /** A run of continuation pads ending in one marker. */
  ghost predicate IsGutter(g: string)
    decreases |g|
  {
    if |g| < 4 then false
    else if |g| == 4 then g == Branch || g == Last
    else (g[..4] == Bar || g[..4] == Blank) && IsGutter(g[4..])
  }

  /** A line is the prefix, a gutter, and the entry's name. */
  ghost predicate IsRow(line: string, prefix: string, name: string)
  {
    exists g :: IsGutter(g) && line == prefix + g + name
  }

  /** Line k is the row of shown entry k, for every k. */
  ghost predicate RowsMatch(lines: seq<string>, shown: seq<Entry>, prefix: string)
  {
    |lines| == |shown| && forall k :: 0 <= k < |lines| ==> IsRow(lines[k], prefix, shown[k].name)
  }

  lemma MarkerRow(prefix: string, pointer: string, e: Entry)
    requires pointer == Branch || pointer == Last
    ensures RowsMatch([prefix + pointer + e.name], [e], prefix)
  {
    assert IsGutter(pointer);
  }

  lemma RowsMatchConcat(a: seq<string>, sa: seq<Entry>, b: seq<string>, sb: seq<Entry>, prefix: string)
    requires RowsMatch(a, sa, prefix) && RowsMatch(b, sb, prefix)
    ensures RowsMatch(a + b, sa + sb, prefix)
  {
    forall k | 0 <= k < |a + b| ensures IsRow((a + b)[k], prefix, (sa + sb)[k].name) {
      if k < |a| {
        assert (a + b)[k] == a[k] && (sa + sb)[k] == sa[k];
      } else {
        assert (a + b)[k] == b[k - |a|] && (sa + sb)[k] == sb[k - |a|];
      }
    }
  }

  lemma NestedRow(line: string, prefix: string, pointer: string, name: string)
    requires pointer == Branch || pointer == Last
    requires IsRow(line, prefix + Extension(pointer), name)
    ensures IsRow(line, prefix, name)
  {
    var g :| IsGutter(g) && line == prefix + Extension(pointer) + g + name;
    var ext := Extension(pointer);
    GutterExtends(ext, g);
    AppendAssociates(prefix, ext, g);
  }

  lemma GutterExtends(ext: string, g: string)
    requires ext == Bar || ext == Blank
    requires IsGutter(g)
    ensures IsGutter(ext + g)
  {
    var g' := ext + g;
    assert |g| >= 4;
    assert g'[..4] == ext && g'[4..] == g;
  }

  lemma RowsMatchNested(lines: seq<string>, shown: seq<Entry>, prefix: string, pointer: string)
    requires pointer == Branch || pointer == Last
    requires RowsMatch(lines, shown, prefix + Extension(pointer))
    ensures RowsMatch(lines, shown, prefix)
  {
    forall k | 0 <= k < |lines| ensures IsRow(lines[k], prefix, shown[k].name) {
      NestedRow(lines[k], prefix, pointer, shown[k].name);
    }
  }

  /** Every line printed is prefix + gutter + name of the entry shown at the
      same position, and there are exactly as many lines as shown entries. */
  lemma {:induction false} TreeRows(dir: Entry, excluded: set<string>, prefix: string, depth: int)
    requires dir.Dir?
    ensures RowsMatch(Tree(dir, excluded, prefix, depth), Shown(dir, excluded, depth), prefix)
    decreases dir
  {
    if depth >= 0 {
      var items := Listing(dir, excluded);
      RowsRows(dir, items, 0, excluded, prefix, depth);
    }
  }

  lemma {:induction false} RowsRows(dir: Entry, items: seq<Entry>, i: nat, excluded: set<string>, prefix: string, depth: int)
    requires dir.Dir? && forall k :: 0 <= k < |items| ==> items[k] in dir.entries
    ensures RowsMatch(Rows(dir, items, Pointers(|items|), i, excluded, prefix, depth),
                      ShownFrom(dir, items, i, excluded, depth), prefix)
    decreases dir, |items| - i
  {
    var pointers := Pointers(|items|);
    if i < |items| {
      var item, pointer := items[i], pointers[i];
      assert pointer == Branch || pointer == Last;
      MarkerRow(prefix, pointer, item);
      var sub: seq<string> := if item.Dir? then Tree(item, excluded, prefix + Extension(pointer), depth - 1) else [];
      var subShown: seq<Entry> := if item.Dir? then Shown(item, excluded, depth - 1) else [];
      if item.Dir? {
        TreeRows(item, excluded, prefix + Extension(pointer), depth - 1);
        RowsMatchNested(sub, subShown, prefix, pointer);
      }
      RowsRows(dir, items, i + 1, excluded, prefix, depth);
      var rest := Rows(dir, items, pointers, i + 1, excluded, prefix, depth);
      var restShown := ShownFrom(dir, items, i + 1, excluded, depth);
      RowsMatchConcat([prefix + pointer + item.name], [item], sub, subShown, prefix);
      RowsMatchConcat([prefix + pointer + item.name] + sub, [item] + subShown, rest, restShown, prefix);
    }
  }

  /** No shown entry carries an excluded name. */
  lemma {:induction false} ShownNotExcluded(dir: Entry, excluded: set<string>, depth: int)
    requires dir.Dir?
    ensures forall k :: 0 <= k < |Shown(dir, excluded, depth)| ==> Shown(dir, excluded, depth)[k].name !in excluded
    decreases dir
  {
    if depth >= 0 {
      ShownFromNotExcluded(dir, Listing(dir, excluded), 0, excluded, depth);
    }
  }

  lemma {:induction false} ShownFromNotExcluded(dir: Entry, items: seq<Entry>, i: nat, excluded: set<string>, depth: int)
    requires dir.Dir? && forall k :: 0 <= k < |items| ==> items[k] in dir.entries && items[k].name !in excluded
    ensures forall k :: 0 <= k < |ShownFrom(dir, items, i, excluded, depth)| ==>
              ShownFrom(dir, items, i, excluded, depth)[k].name !in excluded
    decreases dir, |items| - i
  {
    if i < |items| {
      if items[i].Dir? {
        ShownNotExcluded(items[i], excluded, depth - 1);
      }
      ShownFromNotExcluded(dir, items, i + 1, excluded, depth);
    }
  }

  lemma {:induction false} RowsAnyDir(d1: Entry, d2: Entry, items: seq<Entry>, pointers: seq<string>, i: nat,
                                      excluded: set<string>, prefix: string, depth: int)
    requires d1.Dir? && d2.Dir?
    requires forall k :: 0 <= k < |items| ==> items[k] in d1.entries && items[k] in d2.entries
    ensures Rows(d1, items, pointers, i, excluded, prefix, depth) == Rows(d2, items, pointers, i, excluded, prefix, depth)
    decreases |items| - i
  {
    if i < |pointers| && i < |items| {
      RowsAnyDir(d1, d2, items, pointers, i + 1, excluded, prefix, depth);
    }
  }

  /** An excluded entry, directory or file, makes no difference to the output:
      neither it nor anything beneath it is printed. */
  lemma ExcludedEntryIgnored(name: string, entries: seq<Entry>, i: nat, excluded: set<string>, prefix: string, depth: int)
    requires i < |entries| && entries[i].name in excluded
    ensures Tree(Dir(name, entries[..i] + entries[i + 1..]), excluded, prefix, depth)
         == Tree(Dir(name, entries), excluded, prefix, depth)
  {
    var d1 := Dir(name, entries[..i] + entries[i + 1..]);
    var d2 := Dir(name, entries);
    FilterDropsRejected(entries, i, Kept(excluded));
    var items := Listing(d2, excluded);
    assert Listing(d1, excluded) == items;
    if depth >= 0 {
      RowsAnyDir(d1, d2, items, Pointers(|items|), 0, excluded, prefix, depth);
    }
  }

  lemma {:induction false} FilterDropsRejected<T>(s: seq<T>, i: nat, p: T -> bool)
    requires i < |s| && !p(s[i])
    ensures Filter(s[..i] + s[i + 1..], p) == Filter(s, p)
  {
    if i == 0 {
      assert s[..0] + s[1..] == s[1..];
    } else {
      var t := s[1..];
      FilterDropsRejected(t, i - 1, p);
      assert s[..i] + s[i + 1..] == [s[0]] + (t[..i - 1] + t[i..]);
    }
  }

  /** With nothing left after exclusion, nothing is printed. */
  lemma EmptyListingPrintsNothing(dir: Entry, excluded: set<string>, prefix: string, depth: int)
    requires dir.Dir?
    requires forall k :: 0 <= k < |dir.entries| ==> dir.entries[k].name in excluded
    ensures Tree(dir, excluded, prefix, depth) == []
  {
  }

  /** A negative depth budget prints nothing. */
  lemma NegativeDepthPrintsNothing(dir: Entry, excluded: set<string>, prefix: string, depth: int)
    requires dir.Dir? && depth < 0
    ensures Tree(dir, excluded, prefix, depth) == []
  {
  }

  /** The marker for item j of n: a branch for all but the last. */
  function Marker(j: nat, n: nat): string
  {
    if j + 1 < n then Branch else Last
  }

  /** With depth 0 only the listing itself is printed, one line per item in
      listing order, branch markers first and the last marker at the end. */
  lemma DepthZeroListsTopLevel(dir: Entry, excluded: set<string>, prefix: string)
    requires dir.Dir?
    ensures var items := Listing(dir, excluded);
            Tree(dir, excluded, prefix, 0) == seq(|items|, j requires 0 <= j < |items| => prefix + Marker(j, |items|) + items[j].name)
  {
    var items := Listing(dir, excluded);
    RowsDepthZero(dir, items, 0, excluded, prefix);
  }

  lemma {:induction false} RowsDepthZero(dir: Entry, items: seq<Entry>, i: nat, excluded: set<string>, prefix: string)
    requires dir.Dir? && forall k :: 0 <= k < |items| ==> items[k] in dir.entries
    requires i <= |items|
    ensures Rows(dir, items, Pointers(|items|), i, excluded, prefix, 0)
         == seq(|items| - i, j requires 0 <= j < |items| - i => prefix + Marker(i + j, |items|) + items[i + j].name)
    decreases |items| - i
  {
    if i < |items| {
      RowsDepthZero(dir, items, i + 1, excluded, prefix);
      var pointers := Pointers(|items|);
      assert pointers[i] == Marker(i, |items|);
      if items[i].Dir? {
        assert Tree(items[i], excluded, prefix + Extension(pointers[i]), -1) == [];
      }
    }
  }

  /** `head` is line `off` of `lines` and `sub` follows it directly. */
  ghost predicate BlockAt(lines: seq<string>, off: int, head: string, sub: seq<string>)
  {
    0 <= off && off + 1 + |sub| <= |lines| && lines[off] == head && lines[off + 1 .. off + 1 + |sub|] == sub
  }

  lemma BlockShift(x: seq<string>, tail: seq<string>, off: int, head: string, sub: seq<string>,
                   lines: seq<string>, at: int)
    requires BlockAt(tail, off, head, sub)
    requires lines == x + tail && at == |x| + off
    ensures BlockAt(lines, at, head, sub)
  {
    assert lines[at] == tail[off];
    assert lines[at + 1 .. at + 1 + |sub|] == tail[off + 1 .. off + 1 + |sub|];
  }

  /** The lines printed beneath item k of a listing (none for a file). */
  function Beneath(dir: Entry, items: seq<Entry>, k: nat, excluded: set<string>, prefix: string, depth: int): seq<string>
    requires dir.Dir? && forall k :: 0 <= k < |items| ==> items[k] in dir.entries
    requires k < |items|
    decreases dir, 0
  {
    if items[k].Dir? then Tree(items[k], excluded, prefix + Extension(Marker(k, |items|)), depth - 1) else []
  }

  /** Where the line of item j lands among the lines printed from item i on:
      one line per earlier item plus everything printed beneath it. */
  function Offset(dir: Entry, items: seq<Entry>, i: nat, j: nat, excluded: set<string>, prefix: string, depth: int): nat
    requires dir.Dir? && forall k :: 0 <= k < |items| ==> items[k] in dir.entries
    requires i <= j < |items|
    decreases j - i
  {
    if i == j then 0 else 1 + |Beneath(dir, items, i, excluded, prefix, depth)| + Offset(dir, items, i + 1, j, excluded, prefix, depth)
  }

  /** A directory's entries are printed directly below its own line, one
      level deeper, with the padding chosen by the directory's marker; the
      directory's line sits after every line printed for the entries before it. */
  lemma ChildrenFollowTheirDirectory(dir: Entry, excluded: set<string>, prefix: string, depth: int, j: nat)
    requires dir.Dir? && depth >= 0
    requires j < |Listing(dir, excluded)|
    ensures var items := Listing(dir, excluded);
            BlockAt(Tree(dir, excluded, prefix, depth), Offset(dir, items, 0, j, excluded, prefix, depth),
                    prefix + Marker(j, |items|) + items[j].name,
                    Beneath(dir, items, j, excluded, prefix, depth))
  {
    var items := Listing(dir, excluded);
    RowsBlock(dir, items, 0, excluded, prefix, depth, j);
  }

  lemma {:induction false} RowsBlock(dir: Entry, items: seq<Entry>, i: nat, excluded: set<string>, prefix: string, depth: int, j: nat)
    requires dir.Dir? && forall k :: 0 <= k < |items| ==> items[k] in dir.entries
    requires i <= j < |items|
    ensures BlockAt(Rows(dir, items, Pointers(|items|), i, excluded, prefix, depth), Offset(dir, items, i, j, excluded, prefix, depth),
                    prefix + Marker(j, |items|) + items[j].name,
                    Beneath(dir, items, j, excluded, prefix, depth))
    decreases |items| - i
  {
    var head := prefix + Marker(i, |items|) + items[i].name;
    var here := Beneath(dir, items, i, excluded, prefix, depth);
    var rest := Rows(dir, items, Pointers(|items|), i + 1, excluded, prefix, depth);
    var lines := Rows(dir, items, Pointers(|items|), i, excluded, prefix, depth);
    RowsAt(dir, items, i, excluded, prefix, depth);
    if j == i {
      BlockAtFront(head, here, rest, lines, Offset(dir, items, i, j, excluded, prefix, depth));
    } else {
      var off := Offset(dir, items, i + 1, j, excluded, prefix, depth);
      RowsBlock(dir, items, i + 1, excluded, prefix, depth, j);
      BlockShift([head] + here, rest, off, prefix + Marker(j, |items|) + items[j].name, Beneath(dir, items, j, excluded, prefix, depth),
                 lines, Offset(dir, items, i, j, excluded, prefix, depth));
    }
  }

  /** The lines from item i on: its own line, what is beneath it, and the rest. */
  lemma RowsAt(dir: Entry, items: seq<Entry>, i: nat, excluded: set<string>, prefix: string, depth: int)
    requires dir.Dir? && forall k :: 0 <= k < |items| ==> items[k] in dir.entries
    requires i < |items|
    ensures Pointers(|items|)[i] == Marker(i, |items|)
    ensures Rows(dir, items, Pointers(|items|), i, excluded, prefix, depth)
            == [prefix + Marker(i, |items|) + items[i].name] + Beneath(dir, items, i, excluded, prefix, depth)
               + Rows(dir, items, Pointers(|items|), i + 1, excluded, prefix, depth)
  {
    assert Pointers(|items|)[i] == Marker(i, |items|);
  }

  /** One turn of the printing loop: item i's line and the lines beneath it
      are the next lines of the tree. */
  lemma RowsStep(dir: Entry, items: seq<Entry>, i: nat, excluded: set<string>, prefix: string, depth: int,
                 out: seq<string>, pointer: string, line: seq<string>, sub: seq<string>, whole: seq<string>)
    requires dir.Dir? && forall k :: 0 <= k < |items| ==> items[k] in dir.entries
    requires i < |items| && pointer == Pointers(|items|)[i]
    requires out + Rows(dir, items, Pointers(|items|), i, excluded, prefix, depth) == whole
    requires line == [prefix + pointer + items[i].name]
    requires sub == if items[i].Dir? then Tree(items[i], excluded, prefix + Extension(pointer), depth - 1) else []
    ensures out + line + sub + Rows(dir, items, Pointers(|items|), i + 1, excluded, prefix, depth) == whole
  {
    RowsAt(dir, items, i, excluded, prefix, depth);
    var rest := Rows(dir, items, Pointers(|items|), i + 1, excluded, prefix, depth);
    assert sub == Beneath(dir, items, i, excluded, prefix, depth);
    AppendAssociates(out, line + sub, rest);
    AppendAssociates(out, line, sub);
  }

  lemma BlockAtFront(head: string, here: seq<string>, rest: seq<string>, lines: seq<string>, at: int)
    requires lines == [head] + here + rest && at == 0
    ensures BlockAt(lines, at, head, here)
  {
    assert lines[1 .. 1 + |here|] == here;
  }


  // ---------------------------------------------------------------------
  // Counting: with nothing excluded and enough depth, every entry is printed.

  function Size(e: Entry): nat
  {
    match e
    case File(_) => 1
    case Dir(_, entries) => 1 + SizeAll(entries)
  }

  function SizeAll(es: seq<Entry>): nat
  {
    if es == [] then 0 else Size(es[0]) + SizeAll(es[1..])
  }

  /** Levels of entries below an entry: a file and an empty directory have 0, a directory of files has 1. */
  function Height(e: Entry): nat
  {
    match e
    case File(_) => 0
    case Dir(_, entries) => if entries == [] then 0 else 1 + HeightAll(entries)
  }

  function HeightAll(es: seq<Entry>): nat
  {
    if es == [] then 0
    else var h := Height(es[0]); var r := HeightAll(es[1..]); if h < r then r else h
  }

  ghost predicate NoneExcluded(e: Entry, excluded: set<string>)
  {
    match e
    case File(n) => n !in excluded
    case Dir(n, entries) => n !in excluded && forall k :: 0 <= k < |entries| ==> NoneExcluded(entries[k], excluded)
  }

  /** The line count for a tree with no excluded names, printed with at
      least its height as depth, is the number of entries below the root. */
  lemma {:induction false} PrintsEveryEntry(dir: Entry, excluded: set<string>, prefix: string, depth: int)
    requires dir.Dir? && depth >= Height(dir)
    requires forall k :: 0 <= k < |dir.entries| ==> NoneExcluded(dir.entries[k], excluded)
    ensures |Tree(dir, excluded, prefix, depth)| == SizeAll(dir.entries)
    decreases dir
  {
    TreeRows(dir, excluded, prefix, depth);
    ShownAll(dir, excluded, depth);
    assert RowsMatch(Tree(dir, excluded, prefix, depth), Shown(dir, excluded, depth), prefix);
  }

  lemma {:induction false} ShownAll(dir: Entry, excluded: set<string>, depth: int)
    requires dir.Dir? && depth >= Height(dir)
    requires forall k :: 0 <= k < |dir.entries| ==> NoneExcluded(dir.entries[k], excluded)
    ensures |Shown(dir, excluded, depth)| == SizeAll(dir.entries)
    decreases dir
  {
    FilterKeepsAll(dir.entries, Kept(excluded));
    assert Listing(dir, excluded) == dir.entries;
    if dir.entries == [] {
    } else {
      ShownFromAll(dir, dir.entries, 0, excluded, depth);
    }
  }

  lemma {:induction false} ShownFromAll(dir: Entry, items: seq<Entry>, i: nat, excluded: set<string>, depth: int)
    requires dir.Dir? && items == dir.entries && items != [] && depth >= Height(dir) && i <= |items|
    requires forall k :: 0 <= k < |items| ==> NoneExcluded(items[k], excluded)
    ensures |ShownFrom(dir, items, i, excluded, depth)| == SizeAll(items[i..])
    decreases dir, |items| - i
  {
    if i < |items| {
      ShownFromAll(dir, items, i + 1, excluded, depth);
      assert items[i..][1..] == items[i + 1..];
      HeightAllBound(items, i);
      var e := items[i];
      if e.Dir? {
        ShownAll(e, excluded, depth - 1);
      }
    }
  }

  lemma {:induction false} HeightAllBound(es: seq<Entry>, i: nat)
    requires i < |es|
    ensures Height(es[i]) <= HeightAll(es)
  {
    if i > 0 {
      HeightAllBound(es[1..], i - 1);
    }
  }

  /** The entries at levels 0..depth that are not excluded and lie under no
      excluded directory, counted directly on the tree. */
  function Visible(es: seq<Entry>, excluded: set<string>, depth: int): nat
    decreases es
  {
    if depth < 0 || es == [] then 0
    else
      var e := es[0];
      (if e.name in excluded then 0 else 1 + (if e.Dir? then Visible(e.entries, excluded, depth - 1) else 0))
      + Visible(es[1..], excluded, depth)
  }

  /** The same count over an already filtered listing. */
  function Counted(items: seq<Entry>, excluded: set<string>, depth: int): nat
  {
    if items == [] then 0
    else 1 + (if items[0].Dir? then Visible(items[0].entries, excluded, depth - 1) else 0) + Counted(items[1..], excluded, depth)
  }

  /** One printed line per visible entry. */
  lemma {:induction false} LineCount(dir: Entry, excluded: set<string>, prefix: string, depth: int)
    requires dir.Dir?
    ensures |Tree(dir, excluded, prefix, depth)| == Visible(dir.entries, excluded, depth)
  {
    TreeRows(dir, excluded, prefix, depth);
    ShownCount(dir, excluded, depth);
  }

  lemma {:induction false} ShownCount(dir: Entry, excluded: set<string>, depth: int)
    requires dir.Dir?
    ensures |Shown(dir, excluded, depth)| == Visible(dir.entries, excluded, depth)
    decreases dir
  {
    if depth >= 0 {
      var items := Listing(dir, excluded);
      ShownFromCounted(dir, items, 0, excluded, depth);
      VisibleFilter(dir.entries, excluded, depth);
      assert items[0..] == items;
    }
  }

  lemma {:induction false} ShownFromCounted(dir: Entry, items: seq<Entry>, i: nat, excluded: set<string>, depth: int)
    requires dir.Dir? && forall k :: 0 <= k < |items| ==> items[k] in dir.entries
    requires i <= |items|
    ensures |ShownFrom(dir, items, i, excluded, depth)| == Counted(items[i..], excluded, depth)
    decreases dir, |items| - i
  {
    if i < |items| {
      ShownFromCounted(dir, items, i + 1, excluded, depth);
      assert items[i..][0] == items[i] && items[i..][1..] == items[i + 1..];
      if items[i].Dir? {
        ShownCount(items[i], excluded, depth - 1);
      }
    }
  }

  lemma {:induction false} VisibleFilter(es: seq<Entry>, excluded: set<string>, depth: int)
    requires depth >= 0
    ensures Visible(es, excluded, depth) == Counted(Filter(es, Kept(excluded)), excluded, depth)
  {
    if es != [] {
      VisibleFilter(es[1..], excluded, depth);
    }
  }
}
