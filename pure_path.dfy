/**
 * The part of Python's `pathlib` the converter uses, on already parsed
 * paths: `name`, `suffix`, `stem`, `parent`, `/` with a plain file name,
 * `with_suffix`, and `str()` in its Windows spelling.
 */
module PurePath {
  import opened Wrappers
  import opened Text

  /**
   * A parsed path: its anchor (`""` for a relative path, a drive and root
   * such as `"C:\\"` otherwise) and its components, none of them empty.
   */
  datatype Path = Path(anchor: string, parts: seq<string>)

  /** The separator `str()` writes between components. */
  const Sep: char := '\\'

  /** `p.name`: the final component, `""` for a bare anchor or `Path('.')`. */
  function Name(p: Path): string {
    if p.parts == [] then [] else p.parts[|p.parts| - 1]
  }

  /** `p.parent`: the anchor is its own parent. */
  function Parent(p: Path): Path {
    if p.parts == [] then p else Path(p.anchor, p.parts[..|p.parts| - 1])
  }

  /** `p / name` for a plain file name (no separator, not absolute). */
  function Child(p: Path, name: string): (c: Path)
    ensures Name(c) == name && Parent(c) == p
  {
    Path(p.anchor, p.parts + [name])
  }

  /** True when the last dot of `name` starts a suffix: neither first nor last. */
  predicate HasSuffix(name: string) {
    var i := RFind(name, '.');
    0 < i < |name| - 1
  }

  /**
   * The suffix of a file name, as `PurePath.suffix` computes it: empty, or
   * a dot followed by at least one character and no further dot.
   */
  function NameSuffix(name: string): (x: string)
    ensures x == [] || (|x| >= 2 && x[0] == '.' && '.' !in x[1..])
  {
    if HasSuffix(name) then name[RFind(name, '.')..] else []
  }

  /**
   * The stem of a file name, as `PurePath.stem` computes it: the name
   * without its suffix, never empty when the name is not.
   */
  function NameStem(name: string): (t: string)
    ensures t + NameSuffix(name) == name
    ensures name != [] ==> t != []
  {
    if HasSuffix(name) then name[..RFind(name, '.')] else name
  }

  function Suffix(p: Path): string { NameSuffix(Name(p)) }

  function Stem(p: Path): string { NameStem(Name(p)) }

  /**
   * When the suffix is empty: the name has no dot, ends with a dot, or
   * its only dot is the leading one (a hidden file such as `.heic`).
   */
  lemma NoSuffixExactly(name: string)
    ensures NameSuffix(name) == [] <==>
      ('.' !in name || name[|name| - 1] == '.' || (name[0] == '.' && '.' !in name[1..]))
  {
    var i := RFind(name, '.');
    if i == 0 {
      assert name[1..] == name[i + 1..];
    } else if 0 < i < |name| - 1 {
      assert name[0] == '.' ==> '.' in name[1..] by {
        assert name[1..][i - 1] == name[i];
      }
    }
  }

  /**
   * Appending a dotted extension to a non-empty stem makes that extension
   * the suffix and gives the stem back.
   */
  lemma AppendedSuffix(stem: string, ext: string)
    requires stem != []
    requires |ext| >= 2 && ext[0] == '.' && '.' !in ext[1..]
    ensures NameSuffix(stem + ext) == ext && NameStem(stem + ext) == stem
  {
    var name := stem + ext;
    assert name[|stem|] == '.';
    forall j | |stem| < j < |name| ensures name[j] != '.' {
      assert name[j] == ext[1..][j - |stem| - 1];
    }
    assert RFind(name, '.') == |stem|;
  }

  /**
   * `p.with_suffix(suffix)`, for a valid suffix: None where pathlib raises
   * ValueError because the path has an empty name.
   */
  function WithSuffix(p: Path, suffix: string): (r: Option<Path>)
    requires |suffix| >= 2 && suffix[0] == '.' && '.' !in suffix[1..]
    ensures r.None? <==> Name(p) == []
    ensures r.Some? ==> Parent(r.value) == Parent(p) && Stem(r.value) == Stem(p) && Suffix(r.value) == suffix
  {
    if Name(p) == [] then None
    else
      AppendedSuffix(Stem(p), suffix);
      Some(Child(Parent(p), Stem(p) + suffix))
  }

  /** `str(p)` with Windows separators; an empty relative path is `"."`. */
  function Render(p: Path): string {
    if p.parts == [] then (if p.anchor == [] then "." else p.anchor)
    else p.anchor + JoinWith(p.parts, [Sep])
  }

  /** `str(p)` starts with the anchor and ends with the name. */
  lemma RenderEnds(p: Path)
    ensures var s := Render(p); p.anchor <= s && |Name(p)| <= |s| && s[|s| - |Name(p)|..] == Name(p)
  {
    if p.parts != [] {
      var init, last := p.parts[..|p.parts| - 1], p.parts[|p.parts| - 1];
      var joined := JoinWith(p.parts, [Sep]);
      if init != [] {
        assert p.parts == init + [last];
        JoinWithSnoc(init, last, [Sep]);
        assert joined == (JoinWith(init, [Sep]) + [Sep]) + last;
      }
      var s := p.anchor + joined;
      assert s == p.anchor + joined;
      assert s[|s| - |last|..] == last;
    }
  }

  /**
   * `str(p / name)`: the name follows the anchor directly when `p` is a
   * bare anchor, and follows `str(p)` and one separator otherwise.
   */
  lemma RenderChild(p: Path, name: string)
    ensures Render(Child(p, name)) == if p.parts == [] then p.anchor + name else Render(p) + [Sep] + name
  {
    var c := Child(p, name);
    assert c.parts == p.parts + [name];
    if p.parts == [] {
      assert c.parts == [name];
      assert JoinWith(c.parts, [Sep]) == name;
    } else {
      var joined := JoinWith(p.parts, [Sep]);
      JoinWithSnoc(p.parts, name, [Sep]);
      assert Render(c) == p.anchor + (joined + [Sep] + name);
      assert Render(p) == p.anchor + joined;
    }
  }
}
