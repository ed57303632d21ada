/** The fullnames the path-based builders (treeview, treemap, ipytree)
  * visit: a path is split at a separator, and the parts are accumulated
  * one by one into ever longer fullnames. */
module Paths {
  import opened PyStrings

  /** The fullname after appending one path part: the part alone while the
    * accumulated name is still empty, otherwise joined with the separator. */
  function Extend(acc: string, sep: string, part: string): (r: string)
    ensures |acc| > 0 ==> r == acc + sep + part
  {
    if |acc| == 0 then acc + part else acc + sep + part
  }

  /** The fullname accumulated over a sequence of parts. */
  function Acc(parts: seq<string>, sep: string): string
    decreases |parts|
  {
    if parts == [] then "" else Extend(Acc(parts[..|parts| - 1], sep), sep, parts[|parts| - 1])
  }

  /** The fullname visited at each part of a path, in order. */
  function PathNames(parts: seq<string>, sep: string): (r: seq<string>)
    ensures |r| == |parts|
    decreases |parts|
  {
    if parts == [] then [] else PathNames(parts[..|parts| - 1], sep) + [Acc(parts, sep)]
  }

  /** The fullnames visited along one path, as a set. */
  function Visited(parts: seq<string>, sep: string): set<string> {
    set f | f in PathNames(parts, sep)
  }

  /** Every fullname visited for a list of paths, each split at `splitSep`
    * and accumulated with `joinSep`. */
  function PathSet(names: seq<string>, splitSep: string, joinSep: string): set<string>
    requires |splitSep| > 0
    decreases |names|
  {
    if names == [] then {}
    else
      PathSet(names[..|names| - 1], splitSep, joinSep) + Visited(Split(names[|names| - 1], splitSep), joinSep)
  }

  lemma {:induction false} JoinSnoc(ps: seq<string>, p: string, sep: string)
    requires |ps| >= 1
    ensures Join(ps + [p], sep) == Join(ps, sep) + sep + p
    decreases |ps|
  {
    if |ps| > 1 {
      assert (ps + [p])[1..] == ps[1..] + [p];
      JoinSnoc(ps[1..], p, sep);
    } else {
      assert (ps + [p])[1..] == [p];
    }
  }

  /** While the first part is non-empty, the accumulated fullname is the
    * parts joined with the separator. */
  lemma {:induction false} AccIsJoin(parts: seq<string>, sep: string)
    requires |parts| >= 1 && |parts[0]| > 0
    ensures Acc(parts, sep) == Join(parts, sep) && |Acc(parts, sep)| > 0
    decreases |parts|
  {
    if |parts| > 1 {
      var init := parts[..|parts| - 1];
      AccIsJoin(init, sep);
      JoinSnoc(init, parts[|parts| - 1], sep);
      assert init + [parts[|parts| - 1]] == parts;
    } else {
      assert parts[..0] == [];
    }
  }

  /** The i-th visited fullname of a path is its first i+1 parts joined: the
    * prefixes of the path at its separators, ending with the path itself. */
  lemma PathNamesArePrefixes(name: string, sep: string, i: nat)
    requires |sep| > 0 && i < |Split(name, sep)| && |Split(name, sep)[0]| > 0
    ensures PathNames(Split(name, sep), sep)[i] == Join(Split(name, sep)[..i + 1], sep)
    ensures PathNames(Split(name, sep), sep)[|Split(name, sep)| - 1] == name
  {
    var parts := Split(name, sep);
    PathNamesAt(parts, sep, i);
    AccIsJoin(parts[..i + 1], sep);
    PathNamesAt(parts, sep, |parts| - 1);
    assert parts[..|parts|] == parts;
    AccIsJoin(parts, sep);
    JoinSplit(name, sep);
  }

  lemma {:induction false} PathNamesAt(parts: seq<string>, sep: string, i: nat)
    requires i < |parts|
    ensures PathNames(parts, sep)[i] == Acc(parts[..i + 1], sep)
    decreases |parts|
  {
    var init := parts[..|parts| - 1];
    if i < |parts| - 1 {
      PathNamesAt(init, sep, i);
      assert init[..i + 1] == parts[..i + 1];
    } else {
      assert parts[..i + 1] == parts;
    }
  }

  /** One more part: the accumulated fullname grows by it, and it is the one
    * fullname the step adds to those visited. */
  lemma PathStep(parts: seq<string>, sep: string, i: nat)
    requires i < |parts|
    ensures Acc(parts[..i + 1], sep) == Extend(Acc(parts[..i], sep), sep, parts[i])
    ensures Visited(parts[..i + 1], sep) == Visited(parts[..i], sep) + {Acc(parts[..i + 1], sep)}
  {
    assert parts[..i + 1][..i] == parts[..i];
  }

  /** A loop over the parts of a path that registers each fullname keeps
    * "the keys are the old ones plus those visited so far". */
  lemma VisitedGrows(base: set<string>, before: set<string>, after: set<string>,
                     parts: seq<string>, sep: string, i: nat, fullname: string)
    requires i < |parts|
    requires before == base + Visited(parts[..i], sep)
    requires fullname == Extend(Acc(parts[..i], sep), sep, parts[i])
    requires after == before + {fullname}
    ensures fullname == Acc(parts[..i + 1], sep)
    ensures after == base + Visited(parts[..i + 1], sep)
  {
    PathStep(parts, sep, i);
  }

  /** The same over a list of paths. */
  lemma PathSetGrows(base: set<string>, before: set<string>, after: set<string>,
                     names: seq<string>, splitSep: string, joinSep: string, n: nat)
    requires |splitSep| > 0 && n < |names|
    requires before == base + PathSet(names[..n], splitSep, joinSep)
    requires after == before + Visited(Split(names[n], splitSep), joinSep)
    ensures after == base + PathSet(names[..n + 1], splitSep, joinSep)
  {
    assert names[..n + 1][..n] == names[..n];
  }
}
