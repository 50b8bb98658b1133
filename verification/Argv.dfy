/** From startup template to container entrypoint: tokenize first, substitute second, never parse again. */
module Argv {
  import opened Text
  import Tokenizer
  import Placeholders

  /** Interpreters that may not be the first argument. */
  const FORBIDDEN_ARGV0: set<string> := {"sh", "bash", "dash", "zsh", "ash", "env", "eval", "csh", "ksh", "busybox"}

  const ARGFILE: string := "@unix_args.txt"

  /** Forge for Minecraft 1.16 and older, which runs on a Java without argument files. */
  predicate IsLegacyForgeVersion(version: string) {
    var parts := Split(TrimSpace(version), '.');
    && |parts| >= 2 && parts[0] == "1"
    && ParseInt(parts[1]).Some? && ParseInt(parts[1]).value <= 16
  }

  predicate UsesLegacyForge(vars: map<string, string>) {
    "FORGE_VERSION" in vars && IsLegacyForgeVersion(Lookup(vars, "MINECRAFT_VERSION")) && Lookup(vars, "SERVER_JARFILE") != ""
  }

  /** The place of the first argument file, or -1. */
  function ArgfileIndex(argv: seq<string>): (k: int)
    ensures -1 <= k < |argv|
    ensures k >= 0 ==> argv[k] == ARGFILE
    ensures forall i :: 0 <= i < (if k < 0 then |argv| else k) ==> argv[i] != ARGFILE
  {
    if argv == [] then -1
    else if argv[0] == ARGFILE then 0
    else
      var k := ArgfileIndex(argv[1..]);
      if k < 0 then -1 else k + 1
  }

  /** The first argument file is replaced by `-jar <jar>`; everything else keeps its place. */
  function Rewritten(argv: seq<string>, vars: map<string, string>): seq<string> {
    var k := ArgfileIndex(argv);
    if UsesLegacyForge(vars) && k >= 0 then argv[..k] + ["-jar", vars["SERVER_JARFILE"]] + argv[k + 1..] else argv
  }

  /** Every token substituted, in order. */
  ghost predicate IsSubstituted(tokens: seq<string>, vars: map<string, string>, argv: seq<string>) {
    && |argv| == |tokens|
    && forall i :: 0 <= i < |tokens| ==> Placeholders.Substitute(tokens[i], vars) == Ok(argv[i])
  }

  predicate Launchable(argv: seq<string>) {
    argv != [] && argv[0] !in FORBIDDEN_ARGV0 && forall i :: 0 <= i < |argv| ==> '\0' !in argv[i]
  }

  /** `argv` is what the template starts with these variables. */
  ghost predicate Starts(template: string, vars: map<string, string>, argv: seq<string>) {
    exists tokens, filled ::
      && Tokenizer.Tokenize(template) == Ok(tokens)
      && IsSubstituted(tokens, vars, filled)
      && argv == Rewritten(filled, vars)
      && tokens != [] && Launchable(argv)
  }

  method RewriteLegacyForgeArgfile(argv: seq<string>, vars: map<string, string>) returns (out: seq<string>)
    ensures out == Rewritten(argv, vars)
  {
    if "FORGE_VERSION" !in vars || !IsLegacyForgeVersion(Lookup(vars, "MINECRAFT_VERSION")) {
      return argv;
    }
    if "SERVER_JARFILE" !in vars || vars["SERVER_JARFILE"] == "" {
      return argv;
    }
    for i := 0 to |argv|
      invariant forall k :: 0 <= k < i ==> argv[k] != ARGFILE
    {
      if argv[i] == ARGFILE {
        return argv[..i] + ["-jar", vars["SERVER_JARFILE"]] + argv[i + 1..];
      }
    }
    return argv;
  }

  /** A template and its variables determine the argument vector. */
  lemma {:induction false} StartsUnique(template: string, vars: map<string, string>, a: seq<string>, b: seq<string>)
    requires Starts(template, vars, a) && Starts(template, vars, b)
    ensures a == b
  {
    var tokens, filled :| Tokenizer.Tokenize(template) == Ok(tokens) && IsSubstituted(tokens, vars, filled)
      && a == Rewritten(filled, vars);
    OnlyCandidate(template, vars, tokens, filled);
  }

  method SubstituteTokens(tokens: seq<string>, vars: map<string, string>) returns (r: Outcome<seq<string>>)
    ensures r.Ok? ==> IsSubstituted(tokens, vars, r.value)
    ensures r.Err? ==> forall filled :: !IsSubstituted(tokens, vars, filled)
  {
    var filled: seq<string> := [];
    for i := 0 to |tokens|
      invariant |filled| == i
      invariant forall k :: 0 <= k < i ==> Placeholders.Substitute(tokens[k], vars) == Ok(filled[k])
    {
      var s := Placeholders.SubstituteToken(tokens[i], vars);
      if s.Err? {
        return Err(s.reason);
      }
      filled := filled + [s.value];
    }
    return Ok(filled);
  }

  /** The first argument is no interpreter and no argument holds a NUL. */
  method CheckLaunchable(argv: seq<string>) returns (r: bool)
    ensures r == Launchable(argv)
  {
    if argv == [] || argv[0] in FORBIDDEN_ARGV0 {
      return false;
    }
    for i := 0 to |argv|
      invariant forall k :: 0 <= k < i ==> '\0' !in argv[k]
    {
      if '\0' in argv[i] {
        return false;
      }
    }
    return true;
  }

  /** BuildArgv succeeds exactly on the templates that start something, with what they start. */
  method BuildArgv(template: string, vars: map<string, string>) returns (r: Outcome<seq<string>>)
    ensures r.Ok? ==> Starts(template, vars, r.value)
    ensures r.Err? ==> forall argv :: !Starts(template, vars, argv)
  {
    var tokens := Tokenizer.TokenizeTemplate(template);
    if tokens.Err? {
      return Err("invalid startup template");
    }
    if tokens.value == [] {
      return Err("startup template produced no argv tokens");
    }
    var filled := SubstituteTokens(tokens.value, vars);
    if filled.Err? {
      return Err(filled.reason);
    }
    var argv := RewriteLegacyForgeArgfile(filled.value, vars);
    OnlyCandidate(template, vars, tokens.value, filled.value);
    var ok := CheckLaunchable(argv);
    if !ok {
      return Err("startup command begins with an interpreter or holds a NUL byte");
    }
    return Ok(argv);
  }

  /** Once the tokens are substituted, only the rewritten vector can be what the template starts. */
  lemma {:induction false} OnlyCandidate(template: string, vars: map<string, string>, tokens: seq<string>, filled: seq<string>)
    requires Tokenizer.Tokenize(template) == Ok(tokens) && IsSubstituted(tokens, vars, filled)
    ensures forall argv :: Starts(template, vars, argv) ==> argv == Rewritten(filled, vars) && Launchable(argv)
  {
    forall argv | Starts(template, vars, argv) ensures argv == Rewritten(filled, vars) {
      var f :| IsSubstituted(tokens, vars, f) && argv == Rewritten(f, vars);
      assert f == filled;
    }
  }

  /** `arg` is the token's literals with the values verbatim between them. */
  ghost predicate Filled(token: string, vars: map<string, string>, arg: string) {
    exists hs, tail ::
      Placeholders.Splits(token, hs, tail) && Placeholders.Declared(hs, vars) && arg == Placeholders.Fill(hs, vars) + tail
  }

  lemma {:induction false} SubstitutedIsFilled(tokens: seq<string>, vars: map<string, string>, filled: seq<string>)
    requires IsSubstituted(tokens, vars, filled)
    ensures forall i :: 0 <= i < |tokens| ==> Filled(tokens[i], vars, filled[i])
  {
  }

  /** The arguments are the filled tokens in order; `k` is the token replaced by `-jar <jar>`, or -1. */
  ghost predicate Placed(tokens: seq<string>, vars: map<string, string>, argv: seq<string>, k: int) {
    if k < 0 then
      && |argv| == |tokens|
      && (forall i :: 0 <= i < |tokens| ==> Filled(tokens[i], vars, argv[i]))
      && (UsesLegacyForge(vars) ==> ARGFILE !in argv)
    else
      && k < |tokens| && |argv| == |tokens| + 1 && UsesLegacyForge(vars)
      && Filled(tokens[k], vars, ARGFILE) && argv[k] == "-jar" && argv[k + 1] == vars["SERVER_JARFILE"]
      && (forall i :: 0 <= i < k ==> Filled(tokens[i], vars, argv[i]) && argv[i] != ARGFILE)
      && (forall i :: k < i < |tokens| ==> Filled(tokens[i], vars, argv[i + 1]))
  }

  /** Every argument is its token's fill, in place, except that a legacy Forge server's first argument file is two arguments. */
  lemma {:induction false} ArgvElement(template: string, vars: map<string, string>, argv: seq<string>) returns (k: int)
    requires Starts(template, vars, argv)
    ensures Tokenizer.Tokenize(template).Ok? && Placed(Tokenizer.Tokenize(template).value, vars, argv, k)
  {
    var tokens, filled :| Tokenizer.Tokenize(template) == Ok(tokens) && IsSubstituted(tokens, vars, filled)
      && argv == Rewritten(filled, vars);
    SubstitutedIsFilled(tokens, vars, filled);
    k := if UsesLegacyForge(vars) then ArgfileIndex(filled) else -1;
    PlacedByRewrite(tokens, vars, filled, k);
  }

  lemma {:induction false} PlacedByRewrite(tokens: seq<string>, vars: map<string, string>, filled: seq<string>, k: int)
    requires |filled| == |tokens| && forall i :: 0 <= i < |tokens| ==> Filled(tokens[i], vars, filled[i])
    requires k == if UsesLegacyForge(vars) then ArgfileIndex(filled) else -1
    ensures Placed(tokens, vars, Rewritten(filled, vars), k)
  {
    if k >= 0 {
      Shifted(filled, vars["SERVER_JARFILE"], k);
      MovedFills(tokens, vars, filled, Rewritten(filled, vars), k);
    }
  }

  lemma {:induction false} MovedFills(tokens: seq<string>, vars: map<string, string>, filled: seq<string>,
                                      argv: seq<string>, k: nat)
    requires |argv| == |tokens| + 1 == |filled| + 1 && k < |tokens|
    requires forall i :: 0 <= i < |tokens| ==> Filled(tokens[i], vars, filled[i])
    requires forall i :: 0 <= i < k ==> argv[i] == filled[i]
    requires forall i :: k < i < |filled| ==> argv[i + 1] == filled[i]
    ensures forall i :: 0 <= i < k ==> Filled(tokens[i], vars, argv[i])
    ensures forall i :: k < i < |tokens| ==> Filled(tokens[i], vars, argv[i + 1])
  {
  }

  lemma {:induction false} Shifted(filled: seq<string>, jar: string, k: nat)
    requires k < |filled|
    ensures var argv := filled[..k] + ["-jar", jar] + filled[k + 1..];
      && |argv| == |filled| + 1 && argv[k] == "-jar" && argv[k + 1] == jar
      && (forall i :: 0 <= i < k ==> argv[i] == filled[i])
      && (forall i :: k < i < |filled| ==> argv[i + 1] == filled[i])
  {
  }

  /** A vector read back as a template with no variables starts itself, unless it holds a `{{`. */
  lemma {:induction false} Restarts(template: string, argv: seq<string>)
    requires Tokenizer.Tokenize(template) == Ok(argv) && Launchable(argv)
    ensures (forall i :: 0 <= i < |argv| ==> Placeholders.NoPair(argv[i], '{')) ==> Starts(template, map[], argv)
    ensures (exists other :: Starts(template, map[], other)) ==>
              forall i :: 0 <= i < |argv| ==> Placeholders.NoPair(argv[i], '{')
  {
    forall i | 0 <= i < |argv|
      ensures Placeholders.Substitute(argv[i], map[]) ==
              if Placeholders.NoPair(argv[i], '{') then Ok(argv[i]) else Err("unterminated or undeclared placeholder")
    {
      Placeholders.SubstituteNoVars(argv[i]);
    }
    if forall i :: 0 <= i < |argv| ==> Placeholders.NoPair(argv[i], '{') {
      assert IsSubstituted(argv, map[], argv) && argv == Rewritten(argv, map[]);
    }
  }

  // ----- what a started vector is not -----

  /** Nothing is started through an interpreter, and no argument holds a NUL byte. */
  lemma {:induction false} StartsNoShell(template: string, vars: map<string, string>, argv: seq<string>)
    requires Starts(template, vars, argv)
    ensures argv != [] && forall i :: 0 <= i < |argv| ==> '\0' !in argv[i]
    ensures argv[0] !in {"sh", "bash", "dash", "zsh", "ash", "env", "eval", "csh", "ksh", "busybox"}
  {
  }

  /** Minecraft 1.n, with any patch version, is legacy exactly up to 1.16. */
  lemma {:induction false} LegacyUpTo16(n: nat, patch: string)
    requires n < 0x8000_0000_0000_0000 && (patch != [] ==> !IsSpace(patch[|patch| - 1]))
    ensures IsLegacyForgeVersion("1." + FormatNat(n) + if patch == [] then [] else "." + patch) <==> n <= 16
  {
    var d := FormatNat(n);
    var v := "1." + d + if patch == [] then [] else "." + patch;
    NotSpaced(v, n, patch);
    TrimsBothEnds([], v, []);
    assert [] + v + [] == v;
    VersionParts(d, patch);
    DigitsValueOfFormat(n);
    ParseDigits(false, d);
    assert "" + d == d;
  }

  lemma {:induction false} NotSpaced(v: string, n: nat, patch: string)
    requires v == "1." + FormatNat(n) + (if patch == [] then [] else "." + patch)
    requires patch != [] ==> !IsSpace(patch[|patch| - 1])
    ensures v != [] && !IsSpace(v[0]) && !IsSpace(v[|v| - 1])
  {
    var d := FormatNat(n);
    assert v[0] == '1' && IsDigit(d[|d| - 1]);
    assert v[|v| - 1] == if patch == [] then d[|d| - 1] else patch[|patch| - 1];
  }

  lemma {:induction false} VersionParts(d: string, patch: string)
    requires d != [] && forall i :: 0 <= i < |d| ==> IsDigit(d[i])
    ensures var parts := Split("1." + d + (if patch == [] then [] else "." + patch), '.');
      |parts| >= 2 && parts[0] == "1" && parts[1] == d
  {
    assert '.' !in d;
    if patch == [] {
      assert "1." + d + [] == "1" + ['.'] + d;
      SplitNone(d, '.');
      SplitHead("1", d, '.');
    } else {
      var rest := d + ['.'] + patch;
      assert "1." + d + ("." + patch) == "1" + ['.'] + rest;
      SplitHead(d, patch, '.');
      SplitHead("1", rest, '.');
    }
  }

  predicate NeedsJar(argv: seq<string>, vars: map<string, string>) {
    && "FORGE_VERSION" in vars && "@unix_args.txt" in argv
    && "SERVER_JARFILE" in vars && vars["SERVER_JARFILE"] != ""
    && "MINECRAFT_VERSION" in vars && IsLegacyForgeVersion(vars["MINECRAFT_VERSION"])
  }

  /** The argument file is rewritten for a Forge server of such a version with a jar, and for no other. */
  lemma {:induction false} RewrittenIff(argv: seq<string>, vars: map<string, string>)
    ensures Rewritten(argv, vars) != argv <==> NeedsJar(argv, vars)
    ensures NeedsJar(argv, vars) ==>
      |Rewritten(argv, vars)| == |argv| + 1 && vars["SERVER_JARFILE"] in Rewritten(argv, vars) && "-jar" in Rewritten(argv, vars)
  {
    NoVersion();
    if UsesLegacyForge(vars) && ArgfileIndex(argv) >= 0 {
      var k := ArgfileIndex(argv);
      Shifted(argv, vars["SERVER_JARFILE"], k);
      assert argv[k] in argv;
    }
  }

  lemma {:induction false} NoVersion()
    ensures !IsLegacyForgeVersion("")
  {
    assert TrimSpace("") == "" && Split("", '.') == [""];
  }
}
