/**
 * Environment inheritance of the step engine (director/groups.py):
 * `Step.combine_env`, which every step applies to its parent's resolved
 * environment, and `Step.parse_env`, an alternative that expands declared
 * values against the process environment and has no caller.
 */
module Environment {
  import opened Wrappers
  import opened Strings

  /** An environment: variable name to value. */
  type Env = map<string, string>

  /** `"$" + name`: how a declared value refers to its own variable. */
  function Token(name: string): (t: string)
    ensures |t| == |name| + 1
  {
    "$" + name
  }

  /** `env.get(name, "")`. */
  function Lookup(env: Env, name: string): string {
    if name in env then env[name] else ""
  }

  /** One declared entry: occurrences of `$name` become the inherited value. */
  function Substitute(name: string, value: string, inherited: string): string {
    if Contains(value, Token(name)) then Replace(value, Token(name), inherited) else value
  }

  /**
   * What `combine_env` returns: the parent's entries, overwritten for every
   * declared name by the declared value with its `$name` tokens expanded
   * once against the parent's value of that same name.
   */
  function Combined(declared: Env, parent: Option<Env>): Env {
    var base := parent.GetOr(map[]);
    map k | k in base.Keys + declared.Keys ::
      if k in declared then Substitute(k, declared[k], Lookup(base, k)) else base[k]
  }

  /**
   * `combine_env`: copy the parent map, then overwrite one declared name at a
   * time. The loop reads `$name`'s value from the copy it is updating; the
   * result is `Combined` whatever order the names are visited in.
   */
  method CombineEnv(declared: Env, parent: Option<Env>) returns (env: Env)
    ensures env == Combined(declared, parent)
  {
    ghost var base := parent.GetOr(map[]);
    env := parent.GetOr(map[]);
    var todo := declared.Keys;
    while todo != {}
      invariant todo <= declared.Keys
      invariant env.Keys == base.Keys + (declared.Keys - todo)
      invariant forall k :: k in env ==>
        env[k] == if k in declared && k !in todo then Substitute(k, declared[k], Lookup(base, k)) else base[k]
      decreases todo
    {
      var name :| name in todo;
      var value := declared[name];
      if Contains(value, Token(name)) {
        var v := Lookup(env, name);
        value := Replace(value, Token(name), v);
      }
      env := env[name := value];
      todo := todo - {name};
    }
  }

  /** Names nobody declares keep the parent's value; the keys are the union. */
  lemma CombinedInherits(declared: Env, parent: Env, k: string)
    ensures Combined(declared, Some(parent)).Keys == parent.Keys + declared.Keys
    ensures k in parent && k !in declared ==> Combined(declared, Some(parent))[k] == parent[k]
  {
  }

  /** A declared value that mentions no `$name` of its own name is taken literally. */
  lemma CombinedLiteral(declared: Env, parent: Option<Env>, k: string)
    requires k in declared && !Contains(declared[k], Token(k))
    ensures Combined(declared, parent)[k] == declared[k]
  {
  }

  /** `PATH=$PATH:/extra` over `PATH=/usr/bin` resolves to `/usr/bin:/extra`. */
  lemma PathExample()
    ensures Combined(map["PATH" := "$PATH:/extra"], Some(map["PATH" := "/usr/bin", "HOME" := "/root"]))
      == map["PATH" := "/usr/bin:/extra", "HOME" := "/root"]
  {
    var tok := Token("PATH");
    assert Replace("xtra", tok, "/usr/bin") == "xtra";
    assert !(tok <= "extra") && "extra"[1..] == "xtra" by { assert tok[0] != "extra"[0]; }
    assert Replace("extra", tok, "/usr/bin") == "extra";
    assert Replace("/extra", tok, "/usr/bin") == "/extra";
    assert Replace(":/extra", tok, "/usr/bin") == ":/extra";
    assert tok <= "$PATH:/extra";
    assert "$PATH:/extra"[|tok|..] == ":/extra";
    assert Replace("$PATH:/extra", tok, "/usr/bin") == "/usr/bin:/extra";
  }

  /** `parse_env`'s inner loop, allowed at most `fuel` passes: `None` when that is not enough. */
  function Expand(name: string, value: string, v: string, fuel: nat): Option<string>
    decreases fuel
  {
    if !Contains(value, Token(name)) then Some(value)
    else if fuel == 0 then None
    else Expand(name, Replace(value, Token(name), v), v, fuel - 1)
  }

  /** What `parse_env` does: no `env` entry, an expanded map, or a loop that never ends. */
  datatype Parsed = NoEnv | Expanded(env: Env) | Diverges

  /** `parse_env` when every inner loop is cut off after `fuel` passes. */
  function ParsedEnv(declared: Option<Env>, environ: Env, fuel: nat): Parsed {
    match declared
    case None => NoEnv
    case Some(d) =>
      if exists k :: k in d && Expand(k, d[k], Lookup(environ, k), fuel).None? then Diverges
      else Expanded(map k | k in d :: Expand(k, d[k], Lookup(environ, k), fuel).value)
  }

  /**
   * `parse_env`: for each declared name, replace `$name` by the process
   * environment's value until the token is gone. `fuel` bounds each inner
   * loop; `Diverges` stands for a loop the source never leaves.
   */
  method ParseEnv(declared: Option<Env>, environ: Env, fuel: nat) returns (r: Parsed)
    ensures r == ParsedEnv(declared, environ, fuel)
  {
    if declared.None? {
      return NoEnv;
    }
    var d := declared.value;
    var env: Env := map[];
    var todo := d.Keys;
    while todo != {}
      invariant todo <= d.Keys
      invariant env.Keys == d.Keys - todo
      invariant forall k :: k in env ==> Expand(k, d[k], Lookup(environ, k), fuel) == Some(env[k])
      decreases todo
    {
      var name :| name in todo;
      var value := d[name];
      var v := Lookup(environ, name);
      var passes := 0;
      while Contains(value, Token(name)) && passes < fuel
        invariant passes <= fuel
        invariant Expand(name, value, v, fuel - passes) == Expand(name, d[name], v, fuel)
        decreases fuel - passes
      {
        value := Replace(value, Token(name), v);
        passes := passes + 1;
      }
      if Contains(value, Token(name)) {
        return Diverges;
      }
      env := env[name := value];
      todo := todo - {name};
    }
    assert env == map k | k in d :: Expand(k, d[k], Lookup(environ, k), fuel).value;
    return Expanded(env);
  }

  /** When the loop ends, the token is gone from the value. */
  lemma {:induction false} ExpandRemovesToken(name: string, value: string, v: string, fuel: nat)
    requires Expand(name, value, v, fuel).Some?
    ensures !Contains(Expand(name, value, v, fuel).value, Token(name))
    decreases fuel
  {
    if Contains(value, Token(name)) {
      ExpandRemovesToken(name, Replace(value, Token(name), v), v, fuel - 1);
    }
  }

  /**
   * If the environment's value itself contains `$name`, every pass puts the
   * token back: no number of passes ends the loop.
   */
  lemma {:induction false} ExpandDiverges(name: string, value: string, v: string, fuel: nat)
    requires Contains(value, Token(name)) && Contains(v, Token(name))
    ensures Expand(name, value, v, fuel) == None
    decreases fuel
  {
    if fuel > 0 {
      var next := Replace(value, Token(name), v);
      ReplaceInsertsReplacement(value, Token(name), v);
      ContainsTransitive(next, v, Token(name));
      ExpandDiverges(name, next, v, fuel - 1);
    }
  }

  /** An unset variable (or any value shorter than `$name`) makes the loop end within `|value|` passes. */
  lemma {:induction false} ExpandTerminates(name: string, value: string, v: string)
    requires |v| < |Token(name)|
    ensures Expand(name, value, v, |value|).Some?
    decreases |value|
  {
    if Contains(value, Token(name)) {
      var next := Replace(value, Token(name), v);
      ReplaceShrinks(value, Token(name), v);
      ExpandTerminates(name, next, v);
      ExpandMoreFuel(name, next, v, |next|, |value| - 1);
    }
  }

  lemma {:induction false} ExpandMoreFuel(name: string, value: string, v: string, fuel: nat, more: nat)
    requires fuel <= more && Expand(name, value, v, fuel).Some?
    ensures Expand(name, value, v, more) == Expand(name, value, v, fuel)
    decreases fuel
  {
    if Contains(value, Token(name)) {
      ExpandMoreFuel(name, Replace(value, Token(name), v), v, fuel - 1, more - 1);
    }
  }

  /** `A=$A` in the script with `A=$A` in the process environment: `parse_env` never returns. */
  lemma ParseEnvLoopsForever(fuel: nat)
    ensures ParsedEnv(Some(map["A" := "$A"]), map["A" := "$A"], fuel) == Diverges
  {
    var d := map["A" := "$A"];
    assert Token("A") <= "$A";
    ExpandDiverges("A", "$A", "$A", fuel);
    assert "A" in d && Expand("A", d["A"], Lookup(d, "A"), fuel).None?;
  }

  /**
   * `parse_env` with a single substitution pass per name, the way
   * `combine_env` does it: it always returns.
   */
  function ParsedEnvOnce(declared: Option<Env>, environ: Env): Option<Env> {
    match declared
    case None => None
    case Some(d) => Some(map k | k in d :: Substitute(k, d[k], Lookup(environ, k)))
  }

  /**
   * The single-pass `parse_env` agrees with the run-time resolver on every
   * declared name, and with the looping `parse_env` whenever one pass is enough.
   */
  lemma ParsedEnvOnceAgrees(d: Env, environ: Env, fuel: nat)
    requires fuel >= 1
    ensures forall k :: k in d ==> ParsedEnvOnce(Some(d), environ).value[k] == Combined(d, Some(environ))[k]
    ensures (forall k :: k in d ==> !Contains(Substitute(k, d[k], Lookup(environ, k)), Token(k)))
      ==> ParsedEnv(Some(d), environ, fuel) == Expanded(ParsedEnvOnce(Some(d), environ).value)
  {
    if forall k :: k in d ==> !Contains(Substitute(k, d[k], Lookup(environ, k)), Token(k)) {
      forall k | k in d
        ensures Expand(k, d[k], Lookup(environ, k), fuel) == Some(Substitute(k, d[k], Lookup(environ, k)))
      {
        var v := Lookup(environ, k);
        if Contains(d[k], Token(k)) {
          assert Expand(k, d[k], v, fuel) == Expand(k, Replace(d[k], Token(k), v), v, fuel - 1);
        }
      }
      assert !exists k :: k in d && Expand(k, d[k], Lookup(environ, k), fuel).None?;
      var once := ParsedEnvOnce(Some(d), environ).value;
      assert (map k | k in d :: Expand(k, d[k], Lookup(environ, k), fuel).value) == once;
    }
  }
}
