/** The per-class unique method names: the bare name, else the name plus 2, 3, ... */
module UniqueNames {
  import opened JavaStrings

  /** An upper bound on the lengths of a finite set of strings. */
  ghost function MaxLength(names: set<string>): (n: nat)
    ensures forall x :: x in names ==> |x| <= n
  {
    if names == {} then 0
    else
      var x :| x in names;
      var r := MaxLength(names - {x});
      if |x| > r then |x| else r
  }

  /** A suffixed candidate that is taken has fewer digits than the longest taken name. */
  lemma CandidateBound(names: set<string>, name: string, i: nat)
    requires name + Itos(i) in names
    ensures i < Pow10(MaxLength(names))
  {
    if i >= Pow10(MaxLength(names)) {
      ItosLength(i, MaxLength(names));
    }
  }

  /** The first of name + i, name + (i+1), ... that is not taken, with everything skipped taken. */
  function SuffixedName(names: set<string>, name: string, i: nat): (u: string)
    requires i >= 2
    ensures u !in names
    ensures exists j :: j >= i && u == name + Itos(j) && forall k :: i <= k < j ==> name + Itos(k) in names
    decreases Pow10(MaxLength(names)) - i
  {
    var candidate := name + Itos(i);
    if candidate !in names then candidate
    else
      CandidateBound(names, name, i);
      SuffixedName(names, name, i + 1)
  }

  /**
   * The unique name a method gets: its bare name when that is free, otherwise the
   * first free name + i for i = 2, 3, ...
   */
  function UniqueName(names: set<string>, name: string): (u: string)
    ensures u !in names
    ensures u == name <==> name !in names
    ensures u != name ==> exists j :: j >= 2 && u == name + Itos(j) && forall k :: 2 <= k < j ==> name + Itos(k) in names
  {
    if name !in names then name else SuffixedName(names, name, 2)
  }

  /** Two methods with one name: the bare name, then the name with 2. */
  lemma UniqueNameExamples()
    ensures UniqueName({}, "sayHello") == "sayHello"
    ensures UniqueName({"sayHello"}, "sayHello") == "sayHello2"
  {
    assert Itos(2) == "2";
    assert "sayHello" + "2" == "sayHello2";
    assert SuffixedName({"sayHello"}, "sayHello", 2) == "sayHello2";
  }

  /** A third method with the same name skips the taken 2 and gets 3. */
  lemma UniqueNameThirdExample()
    ensures UniqueName({"sayHello", "sayHello2"}, "sayHello") == "sayHello3"
  {
    var names := {"sayHello", "sayHello2"};
    assert Itos(2) == "2" && Itos(3) == "3";
    assert "sayHello" + Itos(2) == "sayHello2" && "sayHello" + Itos(3) == "sayHello3";
    assert SuffixedName(names, "sayHello", 3) == "sayHello3";
    assert SuffixedName(names, "sayHello", 2) == SuffixedName(names, "sayHello", 3);
  }

  /**
   * The suffix loop: HashSet.add is tried on the bare name and then on name + i
   * until it succeeds; the set returned is the one the add left behind.
   */
  method AddUniqueName(methodNameSet: set<string>, name: string) returns (uniqueName: string, names: set<string>)
    ensures uniqueName == UniqueName(methodNameSet, name)
    ensures names == methodNameSet + {uniqueName}
  {
    uniqueName := name;
    var i: nat := 2;
    var added := uniqueName !in methodNameSet;
    names := methodNameSet + {uniqueName};
    while !added
      invariant i >= 2
      invariant !added ==> names == methodNameSet && i <= Pow10(MaxLength(methodNameSet)) + 1
      invariant !added ==> UniqueName(methodNameSet, name) == SuffixedName(methodNameSet, name, i)
      invariant added ==> uniqueName == UniqueName(methodNameSet, name) && names == methodNameSet + {uniqueName}
      decreases if added then 0 else Pow10(MaxLength(methodNameSet)) + 2 - i
    {
      uniqueName := name + Itos(i);
      added := uniqueName !in names;
      if !added {
        CandidateBound(methodNameSet, name, i);
      }
      names := names + {uniqueName};
      i := i + 1;
    }
  }
}
