/**
 * The string steps of the container: the bean key derived from a class name
 * (`dealWithBeanNameToKey`), the setter name derived from a property name
 * (`dealWithBeanNameToMethod`), and the class name derived from the path of a
 * file found under the scan root (`scanAndCreateBean`).
 */
module BeanNames {
  import opened Values

  /** `Character` lower-casing, for the ASCII letters. */
  function ToLower(c: char): char {
    if 'A' <= c <= 'Z' then (c as int + 32) as char else c
  }

  /** `Character` upper-casing, for the ASCII letters. */
  function ToUpper(c: char): char {
    if 'a' <= c <= 'z' then (c as int - 32) as char else c
  }

  /**
   * `name.substring(name.lastIndexOf(".") + 1)`: the longest suffix of `name`
   * that holds no '.'.
   */
  function SimpleName(name: string): (r: string)
    ensures '.' !in r
    ensures |r| <= |name| && forall i :: 0 <= i < |r| ==> r[i] == name[|name| - |r| + i]
    ensures |r| < |name| ==> name[|name| - |r| - 1] == '.'
  {
    if name == [] || name[|name| - 1] == '.' then []
    else SimpleName(name[..|name| - 1]) + [name[|name| - 1]]
  }

  /**
   * `dealWithBeanNameToKey`: the simple name with its first character
   * lower-cased; `None` where `substring(0, 1)` throws on an empty simple name.
   */
  function BeanKey(name: string): (r: Option<string>)
    ensures r.Some? <==> SimpleName(name) != []
    ensures r.Some? ==> |r.value| == |SimpleName(name)| && r.value[1..] == SimpleName(name)[1..]
    ensures r.Some? ==> r.value[0] == ToLower(SimpleName(name)[0])
    ensures r.Some? ==> '.' !in r.value && !('A' <= r.value[0] <= 'Z')
  {
    var s := SimpleName(name);
    if s == [] then None
    else
      LowerFirstShape(s);
      Some(LowerFirst(s))
  }

  /** `s` with its first character lower-cased. */
  function LowerFirst(s: string): string
    requires s != []
  {
    [ToLower(s[0])] + s[1..]
  }

  lemma LowerFirstShape(s: string)
    requires s != [] && '.' !in s
    ensures var r := LowerFirst(s);
      |r| == |s| && r[0] == ToLower(s[0]) && r[1..] == s[1..] && '.' !in r
  {
    var r := LowerFirst(s);
    assert s[0] in s;
    assert r[1..] == s[1..];
    assert forall c :: c in s[1..] ==> c in s;
  }

  /**
   * `dealWithBeanNameToMethod`: "set" followed by the simple name with its first
   * character upper-cased; `None` where `substring(0, 1)` throws.
   */
  function SetterName(name: string): (r: Option<string>)
    ensures r.Some? <==> SimpleName(name) != []
    ensures r.Some? ==> |r.value| == |SimpleName(name)| + 3 && r.value[..3] == "set" && '.' !in r.value
    ensures r.Some? ==> r.value[3] == ToUpper(SimpleName(name)[0]) && r.value[4..] == SimpleName(name)[1..]
    ensures r.Some? ==> !('a' <= r.value[3] <= 'z')
  {
    var s := SimpleName(name);
    if s == [] then None
    else
      SetterShape(s);
      Some(SetPrefixed(s))
  }

  /** "set" followed by `s` with its first character upper-cased. */
  function SetPrefixed(s: string): string
    requires s != []
  {
    "set" + [ToUpper(s[0])] + s[1..]
  }

  lemma SetterShape(s: string)
    requires s != [] && '.' !in s
    ensures var r := SetPrefixed(s);
      |r| == |s| + 3 && r[..3] == "set" && r[3] == ToUpper(s[0]) && r[4..] == s[1..] && '.' !in r
  {
    var t := [ToUpper(s[0])] + s[1..];
    assert '.' !in t by {
      assert s[0] in s;
      assert forall c :: c in s[1..] ==> c in s;
    }
    var r := "set" + t;
    assert r[..3] == "set" && r[3..] == t;
  }

  /** A name without dots is its own simple name. */
  lemma SimpleNameOfDotless(s: string)
    requires '.' !in s
    ensures SimpleName(s) == s
  {
  }

  lemma ToLowerIdempotent(c: char)
    ensures ToLower(ToLower(c)) == ToLower(c)
  {
  }

  lemma ToLowerAfterToUpper(c: char)
    ensures ToLower(ToUpper(c)) == ToLower(c)
  {
  }

  /** Deriving a key from a derived key changes nothing. */
  lemma BeanKeyIdempotent(name: string)
    requires BeanKey(name).Some?
    ensures BeanKey(BeanKey(name).value) == BeanKey(name)
  {
    var k := BeanKey(name).value;
    var s := SimpleName(name);
    SimpleNameOfDotless(k);
    assert k[0] == ToLower(s[0]);
    ToLowerIdempotent(s[0]);
    assert [ToLower(k[0])] + k[1..] == k;
  }

  /**
   * The property behind a derived setter name is the bean key of the
   * original name: stripping "set" and deriving the key gives the key back.
   */
  lemma SetterKeyRoundTrip(name: string)
    requires SetterName(name).Some?
    ensures BeanKey(SetterName(name).value[3..]) == BeanKey(name)
  {
    var s := SimpleName(name);
    var t := SetterName(name).value[3..];
    assert t == [ToUpper(s[0])] + s[1..];
    SimpleNameOfDotless(t);
    ToLowerAfterToUpper(s[0]);
    assert BeanKey(t).value == [ToLower(s[0])] + s[1..];
  }

  /** The bean key and the setter name of a name agree after their first letter. */
  lemma SetterAgreesWithKey(name: string)
    requires SimpleName(name) != []
    ensures SetterName(name).value[4..] == BeanKey(name).value[1..]
    ensures ToLower(SetterName(name).value[3]) == BeanKey(name).value[0]
  {
    ToLowerAfterToUpper(SimpleName(name)[0]);
  }

  // ---------------------------------------------------------------------
  // From the path of a file under the scan root to a class name.
  // ---------------------------------------------------------------------

  /** `path.split("\\.")[0]`: the part of `path` before its first '.'. */
  function BeforeFirstDot(path: string): (r: string)
    ensures '.' !in r && |r| <= |path| && r == path[..|r|]
    ensures |r| < |path| ==> path[|r|] == '.'
  {
    if path == [] || path[0] == '.' then [] else [path[0]] + BeforeFirstDot(path[1..])
  }

  predicate OccursAt(s: string, pat: string, i: int) {
    0 <= i && i + |pat| <= |s| && s[i..i + |pat|] == pat
  }

  /** `s.indexOf(pat, from)`: the first occurrence of `pat` at or after `from`, or -1. */
  function IndexOfFrom(s: string, pat: string, from: nat): (r: int)
    ensures r == -1 || (from <= r && OccursAt(s, pat, r))
    ensures forall j :: from <= j && (r == -1 || j < r) ==> !OccursAt(s, pat, j)
    decreases |s| - from
  {
    if from + |pat| > |s| then -1
    else if s[from..from + |pat|] == pat then from
    else IndexOfFrom(s, pat, from + 1)
  }

  /** `s.replace(from, to)` for one-character strings. */
  function Replace(s: string, from: char, to: char): (r: string)
    ensures |r| == |s|
    ensures forall i :: 0 <= i < |s| ==> r[i] == if s[i] == from then to else s[i]
  {
    if s == [] then [] else [if s[0] == from then to else s[0]] + Replace(s[1..], from, to)
  }

  lemma ReplaceAppend(a: string, b: string, from: char, to: char)
    ensures Replace(a + b, from, to) == Replace(a, from, to) + Replace(b, from, to)
  {
    var l, r := Replace(a + b, from, to), Replace(a, from, to) + Replace(b, from, to);
    assert forall i :: 0 <= i < |l| ==> l[i] == r[i];
  }

  /**
   * The class name `scanAndCreateBean` derives from a file path: the part
   * before the first '.', cut from the first occurrence of "com", with the
   * file separator turned into '.'. `None` where `substring(-1)` throws
   * because "com" does not occur.
   */
  function ClassNameOfPath(path: string, sep: char): (r: Option<string>)
    ensures r.Some? <==> IndexOfFrom(BeforeFirstDot(path), "com", 0) >= 0
    ensures r.Some? ==> |r.value| >= 3 && (sep != '.' ==> sep !in r.value)
    ensures r.Some? && sep !in "com" ==> r.value[..3] == "com"
  {
    var fileName := BeforeFirstDot(path);
    var index := IndexOfFrom(fileName, "com", 0);
    if index < 0 then None
    else
      var r := Replace(fileName[index..], sep, '.');
      assert fileName[index..][..3] == "com";
      Some(r)
  }

  /** Everything up to the extension: a dot-free stem followed by ".ext" splits at the dot. */
  lemma {:induction false} BeforeFirstDotOfStem(stem: string, ext: string)
    requires '.' !in stem && |ext| > 0 && ext[0] == '.'
    ensures BeforeFirstDot(stem + ext) == stem
  {
    if stem != [] {
      assert (stem + ext)[1..] == stem[1..] + ext;
      BeforeFirstDotOfStem(stem[1..], ext);
    }
  }

  /**
   * For a file `<stem>.<ext>` with a dot-free stem, the class name is the stem
   * cut at the FIRST "com" anywhere in it, wherever the package root starts.
   */
  lemma ClassNameCutsAtFirstCom(stem: string, ext: string, sep: char)
    requires '.' !in stem && |ext| > 0 && ext[0] == '.'
    ensures var i := IndexOfFrom(stem, "com", 0);
      ClassNameOfPath(stem + ext, sep) == if i < 0 then None else Some(Replace(stem[i..], sep, '.'))
  {
    BeforeFirstDotOfStem(stem, ext);
  }

  /** In `<root>com<rel>` the first "com" starts where the root ends. */
  lemma FirstComAfterRoot(root: string, rel: string)
    requires forall i :: !OccursAt(root, "com", i)
    ensures IndexOfFrom(root + "com" + rel, "com", 0) == |root|
  {
    var stem := root + "com" + rel;
    assert OccursAt(stem, "com", |root|) by {
      assert stem[|root|..|root| + 3] == "com";
    }
    forall j | 0 <= j < |root|
      ensures !OccursAt(stem, "com", j)
    {
      NoComStraddlingRoot(root, rel, j);
    }
  }

  /** A "com" starting inside the root would lie in the root or overlap the "com" after it. */
  lemma NoComStraddlingRoot(root: string, rel: string, j: nat)
    requires forall i :: !OccursAt(root, "com", i)
    requires j < |root|
    ensures !OccursAt(root + "com" + rel, "com", j)
  {
    var stem := root + "com" + rel;
    if j + 3 <= |root| {
      assert stem[j..j + 3] == root[j..j + 3];
      assert !OccursAt(root, "com", j);
    } else {
      assert stem[|root|] == 'c';
      assert stem[j..j + 3][|root| - j] == 'c';
    }
  }

  /**
   * A class file laid out as `<root>com<rel>.<ext>`, where the root holds no
   * "com" and no '.', yields the class name `com` + `rel` with separators
   * turned into dots.
   */
  lemma CanonicalClassFile(root: string, rel: string, ext: string, sep: char)
    requires '.' !in root && '.' !in rel && sep !in "com"
    requires forall i :: !OccursAt(root, "com", i)
    requires |ext| > 0 && ext[0] == '.'
    ensures ClassNameOfPath(root + "com" + rel + ext, sep) == Some("com" + Replace(rel, sep, '.'))
  {
    ClassNameOfRootedStem(root, rel, ext, sep);
    ReplaceCom(rel, sep);
  }

  /** The cut at the first "com" of `<root>com<rel>.<ext>` keeps `com<rel>`. */
  lemma ClassNameOfRootedStem(root: string, rel: string, ext: string, sep: char)
    requires '.' !in root && '.' !in rel
    requires forall i :: !OccursAt(root, "com", i)
    requires |ext| > 0 && ext[0] == '.'
    ensures ClassNameOfPath(root + "com" + rel + ext, sep) == Some(Replace("com" + rel, sep, '.'))
  {
    var stem := root + "com" + rel;
    assert '.' !in stem;
    FirstComAfterRoot(root, rel);
    ClassNameCutsAtFirstCom(stem, ext, sep);
    assert stem[|root|..] == "com" + rel;
  }

  lemma ReplaceCom(rel: string, sep: char)
    requires sep !in "com"
    ensures Replace("com" + rel, sep, '.') == "com" + Replace(rel, sep, '.')
  {
    ReplaceAppend("com", rel, sep, '.');
    assert Replace("com", sep, '.') == "com";
  }
}
