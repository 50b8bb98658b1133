/** The lexical check on file paths named by a modpack: the path must stay below the staging directory. */
module ModpackPath {
  import opened Text
  import opened Paths
  import Jail

  /** safeRelative, on a platform whose separator is the slash. */
  predicate SafeRelative(value: string) {
    && value != "" && '\\' !in value
    && var clean := Clean(value);
       && !(clean != "" && clean[0] == '/') && clean != "." && clean != ".." && !("../" <= clean)
  }

  /** Walking the components down from the root, failing as soon as a `..` would leave it. */
  function Descend(comps: seq<string>): Option<seq<string>> {
    if comps == [] then Some([])
    else
      var at, comp := Descend(comps[..|comps| - 1]), comps[|comps| - 1];
      if at.None? || comp == "" || comp == "." then at
      else if comp != ".." then Some(at.value + [comp])
      else if at.value == [] then None
      else Some(at.value[..|at.value| - 1])
  }

  predicate StaysBelow(value: string) {
    Descend(Split(value, '/')).Some? && Descend(Split(value, '/')).value != []
  }

  predicate IsProper(stack: seq<string>) {
    forall i :: 0 <= i < |stack| ==> stack[i] != "" && stack[i] != "." && stack[i] != ".." && '/' !in stack[i]
  }

  /** The cleaned components are where the walk ends, or start with `..` when it leaves the root. */
  lemma {:induction false} ResolveFollows(comps: seq<string>)
    requires forall i :: 0 <= i < |comps| ==> '/' !in comps[i]
    ensures Descend(comps).Some? ==> Resolve(false, comps) == Descend(comps).value && IsProper(Descend(comps).value)
    ensures Descend(comps).None? ==> Resolve(false, comps) != [] && Resolve(false, comps)[0] == ".."
    ensures forall i :: 0 <= i < |Resolve(false, comps)| ==> '/' !in Resolve(false, comps)[i]
  {
    if comps != [] {
      ResolveFollows(comps[..|comps| - 1]);
    }
  }

  lemma {:induction false} ProperJoin(stack: seq<string>)
    requires IsProper(stack) && stack != []
    ensures var s := Join(stack, "/");
      s != "" && s != "." && s != ".." && s[0] != '/' && !("../" <= s)
  {
    var s := Join(stack, "/");
    Jail.SplitJoin(stack);
    Jail.NotADot(stack);
    assert stack[0] != "" && stack[0][0] in stack[0] && s[0] == stack[0][0];
    SplitNone("..", '/');
    FirstIsUp(s);
  }

  lemma {:induction false} FirstIsUp(s: string)
    ensures "../" <= s ==> Split(s, '/')[0] == ".."
  {
    if "../" <= s {
      SplitHead("..", s[3..], '/');
      assert s == ".." + ['/'] + s[3..];
    }
  }

  lemma {:induction false} EscapingJoin(stack: seq<string>)
    requires stack != [] && stack[0] == ".."
    ensures Join(stack, "/") == ".." || "../" <= Join(stack, "/")
  {
    if |stack| > 1 {
      assert Join(stack, "/")[..3] == "../";
    }
  }

  /** A path is accepted exactly when it is relative, has no backslash, never leaves the root and ends below it. */
  lemma {:induction false} SafeRelativeSpec(value: string)
    ensures SafeRelative(value) <==> value != "" && '\\' !in value && value[0] != '/' && StaysBelow(value)
  {
    if value != "" && value[0] != '/' {
      var comps := Split(value, '/');
      ResolveFollows(comps);
      var stack := Resolve(false, comps);
      if Descend(comps).None? {
        EscapingJoin(stack);
      } else if stack != [] {
        ProperJoin(stack);
      }
    }
  }
}
