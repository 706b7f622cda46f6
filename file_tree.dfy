/**
 * A directory as the standard library lists it: `Path.iterdir()` gives a
 * directory's entries, and `os.walk` (top-down, links to directories not
 * followed) gives each directory with the names of its non-directory
 * entries, the directory itself before its sub-directories. The order of
 * the entries is the file system's; the model takes it as given.
 */
module FileTree {
  import opened PurePath

  /** A directory's entries, in the order the file system lists them. */
  datatype Dir = Dir(entries: seq<Entry>)

  /**
   * One entry: a regular file (`is_file()` holds), another kind of
   * non-directory (a socket, a dangling link, ...), or a sub-directory.
   */
  datatype Entry =
    | RegularFile(name: string)
    | OtherFile(name: string)
    | Folder(name: string, contents: Dir)

  /** One step of `os.walk`: a directory and its non-directory names. */
  datatype Visit = Visit(root: Path, fileNames: seq<string>)

  /** The names `os.walk` reports as files: every entry that is not a directory. */
  function FileNames(entries: seq<Entry>): (names: seq<string>)
    ensures forall n :: n in names <==>
      exists k :: 0 <= k < |entries| && !entries[k].Folder? && entries[k].name == n
  {
    if entries == [] then []
    else
      var init := entries[..|entries| - 1];
      var last := entries[|entries| - 1];
      assert forall k :: 0 <= k < |init| ==> init[k] == entries[k];
      FileNames(init) + (if last.Folder? then [] else [last.name])
  }

  /** `q` lies strictly below `root`: same anchor, and `root`'s components extended. */
  predicate StrictlyBelow(root: Path, q: Path) {
    q.anchor == root.anchor && root.parts < q.parts
  }

  /**
   * The sequence `os.walk(root)` yields for a directory with contents `d`:
   * top-down, so `root` with its file names comes first and every later
   * directory lies below it.
   */
  function Walk(root: Path, d: Dir): (vs: seq<Visit>)
    ensures vs != [] && vs[0] == Visit(root, FileNames(d.entries))
    ensures forall k :: 1 <= k < |vs| ==> StrictlyBelow(root, vs[k].root)
    decreases d, 1
  {
    [Visit(root, FileNames(d.entries))] + Descend(root, d, 0)
  }

  /** The walks of the sub-directories among the entries from index `i` on, all below `root`. */
  function Descend(root: Path, d: Dir, i: nat): (vs: seq<Visit>)
    ensures forall k :: 0 <= k < |vs| ==> StrictlyBelow(root, vs[k].root)
    decreases d, 0, |d.entries| - i
  {
    if i >= |d.entries| then []
    else
      var e := d.entries[i];
      assert e in d.entries;
      var sub := if e.Folder? then Walk(Child(root, e.name), e.contents) else [];
      var rest := Descend(root, d, i + 1);
      assert forall k :: 0 <= k < |sub| ==> StrictlyBelow(root, sub[k].root) by {
        forall k | 0 <= k < |sub| ensures StrictlyBelow(root, sub[k].root) {
          var c := Child(root, e.name);
          assert root.parts < c.parts;
          if k > 0 {
            BelowTransitive(root, c, sub[k].root);
          }
        }
      }
      sub + rest
  }

  lemma BelowTransitive(a: Path, b: Path, c: Path)
    requires StrictlyBelow(a, b) && StrictlyBelow(b, c)
    ensures StrictlyBelow(a, c)
  {
    assert c.parts[..|a.parts|] == b.parts[..|a.parts|];
  }

  /** `p` is a non-directory somewhere below `root`, whose contents are `d`. */
  ghost predicate Below(p: Path, root: Path, d: Dir)
    decreases d, 1
  {
    exists k :: 0 <= k < |d.entries| && BelowEntry(p, root, d, k)
  }

  /** `p` is the `k`-th entry of `d`, or lies below it. */
  ghost predicate BelowEntry(p: Path, root: Path, d: Dir, k: nat)
    requires k < |d.entries|
    decreases d, 0
  {
    var e := d.entries[k];
    assert e in d.entries;
    if e.Folder? then Below(p, Child(root, e.name), e.contents)
    else p == Child(root, e.name)
  }

  /** The `k`-th entry is a sub-directory and `p` lies below it. */
  ghost predicate InFolder(p: Path, root: Path, d: Dir, k: nat)
    requires k < |d.entries|
  {
    d.entries[k].Folder? && BelowEntry(p, root, d, k)
  }

  /** Below a directory means: one of its own non-directories, or below one of its sub-directories. */
  lemma {:induction false} BelowCases(p: Path, root: Path, d: Dir)
    ensures Below(p, root, d) <==>
      || (exists k :: 0 <= k < |d.entries| && !d.entries[k].Folder? && p == Child(root, d.entries[k].name))
      || (exists k :: 0 <= k < |d.entries| && InFolder(p, root, d, k))
  {
    if exists k :: 0 <= k < |d.entries| && BelowEntry(p, root, d, k) {
      var k :| 0 <= k < |d.entries| && BelowEntry(p, root, d, k);
      if d.entries[k].Folder? {
        assert InFolder(p, root, d, k);
      }
    }
    if exists k :: 0 <= k < |d.entries| && !d.entries[k].Folder? && p == Child(root, d.entries[k].name) {
      var k :| 0 <= k < |d.entries| && !d.entries[k].Folder? && p == Child(root, d.entries[k].name);
      assert BelowEntry(p, root, d, k);
    }
    if exists k :: 0 <= k < |d.entries| && InFolder(p, root, d, k) {
      var k :| 0 <= k < |d.entries| && InFolder(p, root, d, k);
      assert BelowEntry(p, root, d, k);
    }
  }
}
