/** What the names of an archive mean to a file system: `validate_relative_tree_path` admits exactly the names that lead
    from the extraction root to their own place below it. */
module PathResolution {
  import opened Wrappers
  import opened TreeArchive
  import Text
  import Utf8

  /** Where a file system ends when it follows these components from the directory `at` below a root: an empty component
      and "." stay, ".." goes up and fails at the root, any other goes down. */
  function Resolve(at: seq<string>, parts: seq<string>): Option<seq<string>>
    decreases |parts|
  {
    if parts == [] then Some(at)
    else if parts[0] == "" || parts[0] == "." then Resolve(at, parts[1..])
    else if parts[0] == ".." then if at == [] then None else Resolve(at[..|at| - 1], parts[1..])
    else Resolve(at + [parts[0]], parts[1..])
  }

  /** The name is not empty, has no backslash and no colon, does not start in ".git", and leads to its own place. */
  predicate IsOwnPlace(name: string) {
    name != "" && '\\' !in name && ':' !in name && Text.SplitOn(name, '/')[0] != ".git" &&
    Resolve([], Text.SplitOn(name, '/')) == Some(Text.SplitOn(name, '/'))
  }

  lemma {:induction false} SafeResolves(at: seq<string>, parts: seq<string>)
    requires forall part | part in parts :: SafeComponent(part)
    ensures Resolve(at, parts) == Some(at + parts)
    decreases |parts|
  {
    if parts == [] {
      assert at + parts == at;
    } else {
      assert parts[0] in parts && forall part | part in parts[1..] :: part in parts;
      SafeResolves(at + [parts[0]], parts[1..]);
      assert at + [parts[0]] + parts[1..] == at + parts;
    }
  }

  // Every component that is not safe costs the result a component.
  lemma {:induction false} ResolvedLength(at: seq<string>, parts: seq<string>)
    requires Resolve(at, parts).Some?
    ensures |Resolve(at, parts).value| <= |at| + |parts|
    ensures |Resolve(at, parts).value| == |at| + |parts| ==> forall part | part in parts :: SafeComponent(part)
    decreases |parts|
  {
    if parts != [] {
      var next := if parts[0] == "" || parts[0] == "." then at
                  else if parts[0] == ".." then at[..|at| - 1] else at + [parts[0]];
      ResolvedLength(next, parts[1..]);
      assert forall part | part in parts :: part == parts[0] || part in parts[1..];
    }
  }

  /** The test of the code, for every name. */
  lemma SafePathIff(name: string)
    ensures SafePath(name) <==> IsOwnPlace(name)
  {
    var parts := Split(name);
    if forall part | part in parts :: SafeComponent(part) {
      SafeResolves([], parts);
      assert [] + parts == parts;
    }
    if Resolve([], parts) == Some(parts) { ResolvedLength([], parts); }
    if name != [] && name[0] == '/' {
      assert parts[0] == [] && parts[0] in parts;
      assert !SafeComponent(parts[0]);
    }
  }

  /** A file of an archive lies where its name leads. */
  lemma EntryIsAtItsPlace(e: Entry)
    requires ValidName(e.name)
    ensures Split(e.name) != [] && Resolve([], Split(e.name)) == Some(Split(e.name))
    ensures IsOwnPlace(e.name) && |Utf8.Encode(e.name)| <= 16384
  {
    SafePathIff(e.name);
  }

  lemma ValidNameIff(name: string)
    ensures ValidName(name) <==> IsOwnPlace(name) && |Utf8.Encode(name)| <= 16384
  {
    SafePathIff(name);
  }
}
