/** Relative paths as their components. */
module Paths {
  type Components = seq<string>

  /** A name `read_dir` can yield. */
  predicate ValidName(name: string) {
    name != "" && name != "." && forall i :: 0 <= i < |name| ==> name[i] != '/'
  }

  predicate ValidPath(path: Components) {
    path != [] && forall i :: 0 <= i < |path| ==> ValidName(path[i])
  }

  function Join(path: Components): string {
    if path == [] then ""
    else if |path| == 1 then path[0]
    else path[0] + "/" + Join(path[1..])
  }

  /** `str::split('/')`. */
  function Split(text: string): Components
    ensures Split(text) != []
  {
    if text == [] then [""]
    else if text[0] == '/' then [""] + Split(text[1..])
    else
      var rest := Split(text[1..]);
      [[text[0]] + rest[0]] + rest[1..]
  }

  lemma {:induction false} SplitName(name: string, rest: string)
    requires forall i :: 0 <= i < |name| ==> name[i] != '/'
    ensures Split(name) == [name]
    ensures Split(name + "/" + rest) == [name] + Split(rest)
  {
    var text := name + "/" + rest;
    if name == "" {
      assert text[1..] == rest;
    } else {
      SplitName(name[1..], rest);
      assert text[1..] == name[1..] + "/" + rest;
      assert [name[0]] + name[1..] == name;
    }
  }

  /** Splitting undoes joining. */
  lemma {:induction false} SplitUndoesJoin(path: Components)
    requires ValidPath(path)
    ensures Split(Join(path)) == path
  {
    if |path| == 1 {
      SplitName(path[0], "");
    } else {
      SplitUndoesJoin(path[1..]);
      SplitName(path[0], Join(path[1..]));
    }
  }
}
