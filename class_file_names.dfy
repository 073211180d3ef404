/**
 * The writer's allocation of one file path per class: a memo from type name to path
 * and the set of paths already handed out.
 */
module ClassFileNames {
  import opened Nullable
  import opened JavaStrings
  import opened Classes
  import UniqueNames

  /** The directory of the per-class pages. */
  const ClassSubdir: string := "classes"

  /** The class name with every character that is neither a letter nor a digit replaced by '_'. */
  function Slug(className: string, isLetter: char -> bool, isDigit: char -> bool): (r: string)
    ensures |r| == |className|
    ensures forall k :: 0 <= k < |r| ==>
      (isDigit(className[k]) || isLetter(className[k]) ==> r[k] == className[k]) &&
      (!isDigit(className[k]) && !isLetter(className[k]) ==> r[k] == '_')
  {
    seq(|className|, k requires 0 <= k < |className| =>
          if isDigit(className[k]) || isLetter(className[k]) then className[k] else '_')
  }

  /** The raw path: the subdirectory, the separator, then the slug. */
  function RawPath(className: string, separatorChar: char, isLetter: char -> bool, isDigit: char -> bool): (r: string)
    ensures |r| == |ClassSubdir| + 1 + |className|
    ensures r[..|ClassSubdir|] == ClassSubdir && r[|ClassSubdir|] == separatorChar
    ensures r[|ClassSubdir| + 1..] == Slug(className, isLetter, isDigit)
  {
    ClassSubdir + [separatorChar] + Slug(className, isLetter, isDigit)
  }

  /** Slugs are idempotent: a slug's characters are letters, digits or '_', which '_' keeps. */
  lemma SlugIdempotent(className: string, isLetter: char -> bool, isDigit: char -> bool)
    requires !isDigit('_') && !isLetter('_')
    ensures Slug(Slug(className, isLetter, isDigit), isLetter, isDigit) == Slug(className, isLetter, isDigit)
  {
  }

  /** The path the loop settles on as written: the raw path, else the raw path followed by 2. */
  function AllocatedPath(rawPath: string, taken: set<string>): string {
    if rawPath !in taken then rawPath else rawPath + Itos(2)
  }

  /**
   * The candidates the collision loop tries as written: the raw path first, then the
   * raw path followed by 2 on every later round, because the counter is never advanced.
   */
  function AsWrittenCandidate(rawPath: string, round: nat): string {
    if round == 0 then rawPath else rawPath + Itos(2)
  }

  /** When the raw path and the raw path followed by 2 are both taken, every candidate is taken. */
  lemma {:induction false} CollisionLoopStuck(rawPath: string, taken: set<string>, round: nat)
    requires rawPath in taken && rawPath + "2" in taken
    ensures AsWrittenCandidate(rawPath, round) in taken
  {
    assert Itos(2) == "2";
  }

  /** The intended allocation: the first free one of raw, raw2, raw3, ... */
  function IntendedPath(rawPath: string, taken: set<string>): (r: string)
    ensures r !in taken
    ensures r == rawPath <==> rawPath !in taken
  {
    UniqueNames.UniqueName(taken, rawPath)
  }

  /** The intended allocation never fails and agrees with the written one whenever that one ends. */
  lemma IntendedPathAgrees(rawPath: string, taken: set<string>)
    requires rawPath !in taken || rawPath + "2" !in taken
    ensures IntendedPath(rawPath, taken) == AllocatedPath(rawPath, taken)
  {
    if rawPath in taken {
      assert Itos(2) == "2";
      var u := IntendedPath(rawPath, taken);
      var j :| j >= 2 && u == rawPath + Itos(j) && forall k :: 2 <= k < j ==> rawPath + Itos(k) in taken;
    }
  }

  class HtmlPathMapWriter {
    /** Type name to allocated path. */
    var classNameMap: map<Option<string>, string>
    /** Every path handed out so far. */
    var classFileNameSet: set<string>
    /** File.separatorChar. */
    const separatorChar: char
    /** Character.isLetter. */
    const isLetter: char -> bool
    /** Character.isDigit. */
    const isDigit: char -> bool

    /** Every memoised path is in the set, and distinct type names have distinct paths. */
    ghost predicate Valid()
      reads this
    {
      (forall t :: t in classNameMap ==> classNameMap[t] in classFileNameSet) &&
      (forall t, u :: t in classNameMap && u in classNameMap && t != u ==> classNameMap[t] != classNameMap[u])
    }

    constructor(separatorChar: char, isLetter: char -> bool, isDigit: char -> bool)
      ensures Valid()
      ensures classNameMap == map[] && classFileNameSet == {}
      ensures this.separatorChar == separatorChar && this.isLetter == isLetter && this.isDigit == isDigit
    {
      classNameMap := map[];
      classFileNameSet := {};
      this.separatorChar := separatorChar;
      this.isLetter := isLetter;
      this.isDigit := isDigit;
    }

    /**
     * javaClassNameToPath: a memoised type name returns its path and changes nothing;
     * otherwise a path not handed out before is allocated, recorded and returned. The
     * collision loop retries only the raw path followed by 2, so it ends only when the
     * raw path or that one is free.
     */
    method JavaClassNameToPath(classInfo: ClassInfo) returns (path: string)
      requires Valid()
      requires classInfo.typeName !in classNameMap ==>
        var rawPath := RawPath(classInfo.className, separatorChar, isLetter, isDigit);
        rawPath !in classFileNameSet || rawPath + "2" !in classFileNameSet
      modifies this
      ensures Valid()
      ensures old(classInfo.typeName in classNameMap) ==>
        path == old(classNameMap[classInfo.typeName]) &&
        classNameMap == old(classNameMap) && classFileNameSet == old(classFileNameSet)
      ensures old(classInfo.typeName !in classNameMap) ==>
        path == AllocatedPath(RawPath(classInfo.className, separatorChar, isLetter, isDigit), old(classFileNameSet)) &&
        path !in old(classFileNameSet) &&
        classFileNameSet == old(classFileNameSet) + {path} &&
        classNameMap == old(classNameMap)[classInfo.typeName := path]
    {
      if classInfo.typeName in classNameMap {
        return classNameMap[classInfo.typeName];
      }
      var sb := ClassSubdir + [separatorChar];
      var className := classInfo.className;
      for k := 0 to |className|
        invariant sb == ClassSubdir + [separatorChar] + Slug(className, isLetter, isDigit)[..k]
      {
        assert Slug(className, isLetter, isDigit)[..k + 1] == Slug(className, isLetter, isDigit)[..k] + [Slug(className, isLetter, isDigit)[k]];
        var ch := className[k];
        if isDigit(ch) || isLetter(ch) {
          sb := sb + [ch];
        } else {
          sb := sb + ['_'];
        }
      }
      assert Slug(className, isLetter, isDigit)[..|className|] == Slug(className, isLetter, isDigit);
      var rawPath := sb;
      ghost var taken := classFileNameSet;
      assert Itos(2) == "2";
      path := rawPath;
      var i := 2;
      var added := path !in classFileNameSet;
      classFileNameSet := classFileNameSet + {path};
      while !added
        invariant i == 2 && classNameMap == old(classNameMap)
        invariant !added ==> path == rawPath && rawPath in taken && classFileNameSet == taken
        invariant added ==> path == AllocatedPath(rawPath, taken) && path !in taken && classFileNameSet == taken + {path}
        decreases if added then 0 else 1
      {
        path := rawPath + Itos(i);
        added := path !in classFileNameSet;
        classFileNameSet := classFileNameSet + {path};
      }
      classNameMap := classNameMap[classInfo.typeName := path];
    }
  }
}
