/** Slash-separated paths: the rules of Go's path package, stated on components. */
module Paths {
  import opened Text

  /** One component applied to the stack of components kept so far. */
  function Apply(rooted: bool, stack: seq<string>, comp: string): seq<string> {
    if comp == "" || comp == "." then stack
    else if comp != ".." then stack + [comp]
    else if stack != [] && stack[|stack| - 1] != ".." then stack[..|stack| - 1]
    else if rooted then stack
    else stack + [comp]
  }

  function Resolve(rooted: bool, comps: seq<string>): seq<string> {
    if comps == [] then [] else Apply(rooted, Resolve(rooted, comps[..|comps| - 1]), comps[|comps| - 1])
  }

  /** path.Clean. */
  function Clean(p: string): string {
    var rooted := p != [] && p[0] == '/';
    var kept := Join(Resolve(rooted, Split(p, '/')), "/");
    if rooted then "/" + kept else if kept == "" then "." else kept
  }

  /** path.Join of two elements. */
  function JoinPath(a: string, b: string): string {
    if a == "" && b == "" then ""
    else if a == "" then Clean(b)
    else if b == "" then Clean(a)
    else Clean(a + "/" + b)
  }

  function TrimSlashes(p: string): string {
    if p != [] && p[|p| - 1] == '/' then TrimSlashes(p[..|p| - 1]) else p
  }

  /** path.Base: the last component, ignoring trailing slashes. */
  function Base(p: string): string {
    if p == "" then "."
    else if TrimSlashes(p) == "" then "/"
    else
      var parts := Split(TrimSlashes(p), '/');
      parts[|parts| - 1]
  }

  /** path.Dir: everything up to the last slash, cleaned. */
  function Dir(p: string): string {
    var parts := Split(p, '/');
    if |parts| == 1 then "." else Clean(Join(parts[..|parts| - 1], "/") + "/")
  }

  predicate HasSuffix(s: string, suffix: string) {
    |s| >= |suffix| && s[|s| - |suffix|..] == suffix
  }
}
