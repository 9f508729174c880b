/**
 * The layout loader of the GUI theme (`Theme::processResSection` and its
 * helpers). A theme configuration is a list of sections of `key=value`
 * entries; the loader turns them into variables and aliases of the
 * expression evaluator. A value with several top-level fields describes a
 * widget rectangle: its fields go to `<widget>.x`, `.y`, `.w` and `.h`.
 *
 * The evaluator itself (gui/eval.h and gui/eval.cpp) is not part of this
 * model: its state is the value `Env`, and evaluating an expression is the
 * function parameter `eval`, applied to the state at the moment of the call.
 */
module ThemeConfig {
  import opened Wrappers
  import opened Decimal

  /** `EVAL_UNDEF_VAR`, the evaluator's "no value" marker. */
  const UndefVar: int := -13375

  /** The evaluator's state, as far as the theme loader writes into it. */
  datatype Env = Env(
    vars: map<string, int>,
    aliases: map<string, string>,
    sectionAliases: map<(string, string), string>,
    defs: map<(string, string), string>)
  {
    function SetVar(name: string, v: int): Env {
      this.(vars := vars[name := v])
    }

    function SetAlias(from: string, to: string): Env {
      this.(aliases := aliases[from := to])
    }

    function SetSectionAlias(section: string, key: string, to: string): Env {
      this.(sectionAliases := sectionAliases[(section, key) := to])
    }

    function SetDef(section: string, name: string, text: string): Env {
      this.(defs := defs[(section, name) := text])
    }

    function GetVar(name: string): int {
      if name in vars then vars[name] else UndefVar
    }
  }

  const EmptyEnv := Env(map[], map[], map[], map[])

  /** `Eval::eval(expression, section, name, start)` on a given evaluator state. */
  type Evaluate = (Env, string, string, string, int) -> int

  const Postfixes: seq<string> := ["x", "y", "w", "h"]
  const Corners: seq<string> := ["x", "y", "w", "h", "x2", "y2"]

  /** `base + "." + postfix`, the name of one coordinate of a widget. */
  function Dot(base: string, postfix: string): string {
    base + "." + postfix
  }

  /** Whether `key` is `Dot(base, p)` for one of the first `k` of `postfixes`. */
  predicate Named(base: string, key: string, postfixes: seq<string>, k: nat)
    requires k <= |postfixes|
  {
    exists j | 0 <= j < k :: key == Dot(base, postfixes[j])
  }

  lemma NamedStep(base: string, postfixes: seq<string>, k: nat)
    requires 0 < k <= |postfixes|
    ensures forall key :: Named(base, key, postfixes, k) <==>
      Named(base, key, postfixes, k - 1) || key == Dot(base, postfixes[k - 1])
  {
  }

  lemma NamedMono(base: string, postfixes: seq<string>, k: nat, m: nat)
    requires k <= m <= |postfixes|
    ensures forall key :: Named(base, key, postfixes, k) ==> Named(base, key, postfixes, m)
  {
  }

  predicate Agree<K, V(==)>(a: map<K, V>, b: map<K, V>, key: K) {
    (key in a <==> key in b) && (key in a ==> a[key] == b[key])
  }

  /** Coordinate names of one widget differ exactly when their postfixes differ. */
  lemma DotParts(base: string, p: string)
    ensures |Dot(base, p)| > |base|
    ensures Dot(base, p)[..|base| + 1] == base + "."
    ensures Dot(base, p)[|base| + 1..] == p
  {
    assert Dot(base, p) == (base + ".") + p;
  }

  lemma DotInjective(base: string, p: string, q: string)
    requires Dot(base, p) == Dot(base, q)
    ensures p == q
  {
    DotParts(base, p);
    DotParts(base, q);
  }

  lemma DotNe(base: string, p: string, q: string)
    requires p != q
    ensures Dot(base, p) != Dot(base, q)
  {
    if Dot(base, p) == Dot(base, q) {
      DotInjective(base, p, q);
    }
  }

  lemma DotsDistinct(base: string)
    ensures forall p, q :: Dot(base, p) == Dot(base, q) ==> p == q
  {
    forall p, q | Dot(base, p) == Dot(base, q)
      ensures p == q
    {
      DotInjective(base, p, q);
    }
  }

  lemma CornersDistinct()
    ensures Postfixes == Corners[..4]
    ensures forall i, j | 0 <= i < j < |Corners| :: Corners[i] != Corners[j]
  {
  }

  // ---------------------------------------------------------------------
  // Splitting a value into top-level fields
  // ---------------------------------------------------------------------

  /** `isspace` in the C locale: space, tab, newline, vertical tab, form feed, return. */
  predicate IsSpace(c: char) {
    c == ' ' || 9 <= c as int <= 13
  }

  function Delta(c: char): int {
    if c == '(' then 1 else if c == ')' then -1 else 0
  }

  /** The parenthesis depth (`level`) before `str[i]`. */
  function Depth(str: string, i: nat): int
    requires i <= |str|
  {
    if i == 0 then 0 else Depth(str, i - 1) + Delta(str[i - 1])
  }

  /** A whitespace character outside all parentheses ends a field. */
  predicate TopSpace(str: string, j: nat)
    requires j < |str|
  {
    IsSpace(str[j]) && Depth(str, j) == 0
  }

  /** A `)` with nothing open. */
  predicate ExtraClose(str: string, j: nat)
    requires j < |str|
  {
    str[j] == ')' && Depth(str, j) == 0
  }

  predicate NoExtraClose(str: string, i: nat)
    requires i <= |str|
  {
    forall j | 0 <= j < i :: !ExtraClose(str, j)
  }

  /** No prefix closes more parentheses than it opens, and the whole value closes all it opens. */
  predicate Balanced(str: string) {
    NoExtraClose(str, |str|) && Depth(str, |str|) == 0
  }

  predicate Increasing(cuts: seq<nat>, bound: nat) {
    (forall j | 0 <= j < |cuts| :: cuts[j] < bound) &&
    (forall j | 0 < j < |cuts| :: cuts[j - 1] < cuts[j])
  }

  /** The positions of the field separators among the first `i` characters. */
  function Cuts(str: string, i: nat): (cuts: seq<nat>)
    requires i <= |str|
    ensures Increasing(cuts, i) && |cuts| <= i
  {
    if i == 0 then []
    else Cuts(str, i - 1) + (if TopSpace(str, i - 1) then [i - 1] else [])
  }

  /** Where the field after the separators `cuts` starts (`start`). */
  function Start(cuts: seq<nat>): nat {
    if cuts == [] then 0 else cuts[|cuts| - 1] + 1
  }

  /** The separators are exactly the top-level whitespace positions. */
  lemma {:induction false} CutsExact(str: string, i: nat)
    requires i <= |str|
    ensures forall j | 0 <= j < i :: j in Cuts(str, i) <==> TopSpace(str, j)
  {
    if i > 0 {
      CutsExact(str, i - 1);
    }
  }

  /** Every prefix of a value without an extra `)` has a depth of at least zero. */
  lemma {:induction false} DepthNonNegative(str: string, i: nat)
    requires i <= |str| && NoExtraClose(str, i)
    ensures Depth(str, i) >= 0
  {
    if i > 0 {
      DepthNonNegative(str, i - 1);
      assert !ExtraClose(str, i - 1);
    }
  }

  datatype LineError =
    | ExtraParen(start: nat)
    | MissingParen(start: nat)
    | TooManyFields

  /** The first error the character loop meets among the first `i` characters. */
  function ScanError(str: string, i: nat): Option<LineError>
    requires i <= |str|
  {
    if i == 0 then None
    else if ScanError(str, i - 1).Some? then ScanError(str, i - 1)
    else if TopSpace(str, i - 1) && |Cuts(str, i - 1)| == 4 then Some(TooManyFields)
    else if ExtraClose(str, i - 1) then Some(ExtraParen(Start(Cuts(str, i - 1))))
    else None
  }

  /** The outcome of checking a value: `None` when it can be stored. */
  function LineCheck(str: string): Option<LineError> {
    if ScanError(str, |str|).Some? then ScanError(str, |str|)
    else if Depth(str, |str|) > 0 then Some(MissingParen(Start(Cuts(str, |str|))))
    else if |Cuts(str, |str|)| == 4 then Some(TooManyFields)
    else None
  }

  lemma {:induction false} ScanErrorNone(str: string, i: nat)
    requires i <= |str|
    ensures ScanError(str, i) == None <==> NoExtraClose(str, i) && |Cuts(str, i)| <= 4
  {
    if i > 0 {
      ScanErrorNone(str, i - 1);
    }
  }

  /** Once the character loop has met an error, later characters do not change it. */
  lemma {:induction false} ScanErrorSticks(str: string, i: nat, j: nat)
    requires i <= j <= |str| && ScanError(str, i).Some?
    ensures ScanError(str, j) == ScanError(str, i)
    decreases j
  {
    if j > i {
      ScanErrorSticks(str, i, j - 1);
    }
  }

  /** A value is accepted exactly when its parentheses balance and it has at most four fields. */
  lemma LineCheckNone(str: string)
    ensures LineCheck(str) == None <==> Balanced(str) && |Cuts(str, |str|)| <= 3
  {
    ScanErrorNone(str, |str|);
    if NoExtraClose(str, |str|) {
      DepthNonNegative(str, |str|);
    }
  }

  // ---------------------------------------------------------------------
  // What a single line stores
  // ---------------------------------------------------------------------

  /** The `self.<p>` aliases and undefined coordinates, for the first `k` postfixes. */
  function SelfAliases(env: Env, base: string, k: nat): (r: Env)
    requires k <= 4
    ensures r.defs == env.defs && r.sectionAliases == env.sectionAliases
    ensures forall key :: !Named(base, key, Postfixes, k) ==> Agree(r.vars, env.vars, key)
    ensures forall key :: !Named("self", key, Postfixes, k) ==> Agree(r.aliases, env.aliases, key)
    ensures forall j | 0 <= j < k ::
      Dot("self", Postfixes[j]) in r.aliases && r.aliases[Dot("self", Postfixes[j])] == Dot(base, Postfixes[j]) &&
      Dot(base, Postfixes[j]) in r.vars && r.vars[Dot(base, Postfixes[j])] == UndefVar
  {
    if k == 0 then env
    else
      var e := SelfAliases(env, base, k - 1);
      var p := Postfixes[k - 1];
      NamedStep(base, Postfixes, k);
      NamedStep("self", Postfixes, k);
      DotsDistinct(base);
      DotsDistinct("self");
      CornersDistinct();
      e.SetAlias(Dot("self", p), Dot(base, p)).SetVar(Dot(base, p), UndefVar)
  }

  /**
   * The fields before the last one, in order: field `j` is evaluated on the
   * state the fields before it left and stored as `<base>.<Postfixes[j]>`.
   */
  function Fields(env: Env, section: string, base: string, name: string, str: string,
                  cuts: seq<nat>, eval: Evaluate): (r: Env)
    requires |cuts| <= 4 && Increasing(cuts, |str|)
    ensures r.aliases == env.aliases && r.defs == env.defs && r.sectionAliases == env.sectionAliases
    ensures forall key :: !Named(base, key, Postfixes, |cuts|) ==> Agree(r.vars, env.vars, key)
    ensures forall j | 0 <= j < |cuts| :: Dot(base, Postfixes[j]) in r.vars
    decreases |cuts|
  {
    if cuts == [] then env
    else
      var k := |cuts| - 1;
      var e := Fields(env, section, base, name, str, cuts[..k], eval);
      var lo := Start(cuts[..k]);
      NamedStep(base, Postfixes, k + 1);
      var p := Postfixes[k];
      e.SetVar(Dot(base, p), eval(e, str[lo..cuts[k]], section, Dot(name, p), lo))
  }

  /** Appending one separator stores one more field. */
  lemma FieldsStep(env: Env, section: string, base: string, name: string, str: string,
                   cuts: seq<nat>, i: nat, eval: Evaluate)
    requires |cuts| < 4 && Increasing(cuts + [i], |str|)
    ensures Increasing(cuts, |str|) && Start(cuts) <= i
    ensures var e := Fields(env, section, base, name, str, cuts, eval);
      Fields(env, section, base, name, str, cuts + [i], eval) ==
      e.SetVar(Dot(base, Postfixes[|cuts|]),
               eval(e, str[Start(cuts)..i], section, Dot(name, Postfixes[|cuts|]), Start(cuts)))
  {
    assert (cuts + [i])[..|cuts|] == cuts;
    if cuts != [] {
      assert (cuts + [i])[|cuts|] == i;
      assert (cuts + [i])[|cuts| - 1] == cuts[|cuts| - 1];
    }
  }

  /** `.x2 = .x + .w` and `.y2 = .y + .h`, for a line with all four fields. */
  function CornerSums(env: Env, base: string): (r: Env)
    ensures r.aliases == env.aliases && r.defs == env.defs && r.sectionAliases == env.sectionAliases
    ensures forall key | key != Dot(base, "x2") && key != Dot(base, "y2") :: Agree(r.vars, env.vars, key)
    ensures r.GetVar(Dot(base, "x2")) == r.GetVar(Dot(base, "x")) + r.GetVar(Dot(base, "w"))
    ensures r.GetVar(Dot(base, "y2")) == r.GetVar(Dot(base, "y")) + r.GetVar(Dot(base, "h"))
  {
    DotNe(base, "x", "x2");
    DotNe(base, "w", "x2");
    DotNe(base, "y", "x2");
    DotNe(base, "h", "x2");
    DotNe(base, "x", "y2");
    DotNe(base, "w", "y2");
    DotNe(base, "y", "y2");
    DotNe(base, "h", "y2");
    DotNe(base, "x2", "y2");
    var e := env.SetVar(Dot(base, "x2"), env.GetVar(Dot(base, "x")) + env.GetVar(Dot(base, "w")));
    e.SetVar(Dot(base, "y2"), e.GetVar(Dot(base, "y")) + e.GetVar(Dot(base, "h")))
  }

  /** `setSpecialAlias(alias, target)` for the first `k` of the six coordinates. */
  function SpecialAliases(env: Env, alias: string, target: string, k: nat): (r: Env)
    requires k <= 6
    ensures r.vars == env.vars && r.defs == env.defs && r.sectionAliases == env.sectionAliases
    ensures forall key :: !Named(alias, key, Corners, k) ==> Agree(r.aliases, env.aliases, key)
    ensures forall j | 0 <= j < k ::
      Dot(alias, Corners[j]) in r.aliases && r.aliases[Dot(alias, Corners[j])] == Dot(target, Corners[j])
  {
    if k == 0 then env
    else
      NamedStep(alias, Corners, k);
      DotsDistinct(alias);
      CornersDistinct();
      var p := Corners[k - 1];
      SpecialAliases(env, alias, target, k - 1).SetAlias(Dot(alias, p), Dot(target, p))
  }

  /** The top-level separators of a whole value. */
  function Separators(str: string): (cuts: seq<nat>)
    ensures Increasing(cuts, |str|)
  {
    Cuts(str, |str|)
  }

  /** What `processSingleLine` stores for an accepted value. */
  function LineEffect(env: Env, section: string, prefix: string, name: string, str: string,
                      eval: Evaluate): Env
    requires LineCheck(str) == None
  {
    LineCheckNone(str);
    var base := prefix + name;
    var cuts := Separators(str);
    LastField(Fields(SelfAliases(env, base, 4), section, base, name, str, cuts, eval),
              section, base, name, str, cuts, eval)
  }

  /**
   * The last field, evaluated on the state the others left: stored under the
   * bare name when it is the only one, else as the next coordinate, which
   * completes the rectangle and makes the widget `prev`.
   */
  function LastField(env: Env, section: string, base: string, name: string, str: string,
                     cuts: seq<nat>, eval: Evaluate): Env
    requires |cuts| <= 3 && Increasing(cuts, |str|)
  {
    var n := |cuts|;
    var v := eval(env, str[Start(cuts)..], section, Dot(name, Postfixes[n]), Start(cuts));
    var e2 := if n == 0 then env.SetVar(name, v) else env.SetVar(Dot(base, Postfixes[n]), v);
    var e3 := if n == 3 then CornerSums(e2, base) else e2;
    if n == 0 then e3 else SpecialAliases(e3, "prev", base, 6)
  }

  /** A value without top-level whitespace is a plain `VAR=VALUE`: it is stored under the bare name. */
  lemma LineEffectPlain(env: Env, section: string, prefix: string, name: string, str: string,
                        eval: Evaluate)
    requires LineCheck(str) == None && Separators(str) == []
    ensures var r := LineEffect(env, section, prefix, name, str, eval);
      name in r.vars &&
      r.vars[name] == eval(SelfAliases(env, prefix + name, 4), str, section, Dot(name, "x"), 0) &&
      r.aliases == SelfAliases(env, prefix + name, 4).aliases &&
      forall j | 0 <= j < 4 :: r.GetVar(Dot(prefix + name, Postfixes[j])) == UndefVar
  {
    var base := prefix + name;
    forall j | 0 <= j < 4
      ensures name != Dot(base, Postfixes[j])
    {
      DotParts(base, Postfixes[j]);
    }
  }

  /** A four-field value also defines the right and bottom edges. */
  lemma LineEffectRect(env: Env, section: string, prefix: string, name: string, str: string,
                       eval: Evaluate)
    requires LineCheck(str) == None && |Separators(str)| == 3
    ensures var r := LineEffect(env, section, prefix, name, str, eval);
      var base := prefix + name;
      r.GetVar(Dot(base, "x2")) == r.GetVar(Dot(base, "x")) + r.GetVar(Dot(base, "w")) &&
      r.GetVar(Dot(base, "y2")) == r.GetVar(Dot(base, "y")) + r.GetVar(Dot(base, "h"))
  {
    LineCheckNone(str);
    var base := prefix + name;
    var cuts := Separators(str);
    var e1 := Fields(SelfAliases(env, base, 4), section, base, name, str, cuts, eval);
    var v := eval(e1, str[Start(cuts)..], section, Dot(name, Postfixes[3]), Start(cuts));
    var e2 := e1.SetVar(Dot(base, Postfixes[3]), v);
    var e3 := CornerSums(e2, base);
    assert LineEffect(env, section, prefix, name, str, eval) == SpecialAliases(e3, "prev", base, 6);
  }

  /** What the last field may change, seen from the state the other fields left. */
  lemma LastFieldFrame(env: Env, section: string, base: string, name: string, str: string,
                       cuts: seq<nat>, eval: Evaluate)
    requires |cuts| <= 3 && Increasing(cuts, |str|)
    ensures var r := LastField(env, section, base, name, str, cuts, eval);
      r.defs == env.defs && r.sectionAliases == env.sectionAliases &&
      (forall key | key != name && !Named(base, key, Corners, 6) :: Agree(r.vars, env.vars, key)) &&
      (forall key | !Named("prev", key, Corners, 6) :: Agree(r.aliases, env.aliases, key))
  {
    var n := |cuts|;
    var v := eval(env, str[Start(cuts)..], section, Dot(name, Postfixes[n]), Start(cuts));
    var e2 := if n == 0 then env.SetVar(name, v) else env.SetVar(Dot(base, Postfixes[n]), v);
    var e3 := if n == 3 then CornerSums(e2, base) else e2;
    var r := if n == 0 then e3 else SpecialAliases(e3, "prev", base, 6);
    assert LastField(env, section, base, name, str, cuts, eval) == r;
    CornersDistinct();
    forall key | key != name && !Named(base, key, Corners, 6)
      ensures Agree(r.vars, env.vars, key)
    {
      assert key != Dot(base, Corners[n]);
      assert key != Dot(base, Corners[4]) && key != Dot(base, Corners[5]);
    }
  }

  /** The last of several fields makes the widget `prev` and leaves the coordinates after it alone. */
  lemma LastFieldWidget(env: Env, section: string, base: string, name: string, str: string,
                        cuts: seq<nat>, eval: Evaluate)
    requires 1 <= |cuts| <= 3 && Increasing(cuts, |str|)
    ensures var r := LastField(env, section, base, name, str, cuts, eval);
      (forall j | |cuts| < j < 4 :: r.GetVar(Dot(base, Postfixes[j])) == env.GetVar(Dot(base, Postfixes[j]))) &&
      (forall j | 0 <= j < 6 ::
        Dot("prev", Corners[j]) in r.aliases && r.aliases[Dot("prev", Corners[j])] == Dot(base, Corners[j]))
  {
    var n := |cuts|;
    var v := eval(env, str[Start(cuts)..], section, Dot(name, Postfixes[n]), Start(cuts));
    var e2 := env.SetVar(Dot(base, Postfixes[n]), v);
    var e3 := if n == 3 then CornerSums(e2, base) else e2;
    var r := SpecialAliases(e3, "prev", base, 6);
    assert LastField(env, section, base, name, str, cuts, eval) == r;
    forall j | n < j < 4
      ensures r.GetVar(Dot(base, Postfixes[j])) == env.GetVar(Dot(base, Postfixes[j]))
    {
      DotNe(base, Postfixes[j], Postfixes[n]);
    }
  }

  /**
   * A multi-field value makes `prev.<p>` name this widget's coordinates,
   * and `self.<p>` names them too; coordinates the value does not give
   * stay undefined.
   */
  lemma LineEffectWidget(env: Env, section: string, prefix: string, name: string, str: string,
                         eval: Evaluate)
    requires LineCheck(str) == None && |Separators(str)| >= 1
    ensures var r := LineEffect(env, section, prefix, name, str, eval);
      var base := prefix + name;
      (forall j | 0 <= j < 6 ::
        Dot("prev", Corners[j]) in r.aliases && r.aliases[Dot("prev", Corners[j])] == Dot(base, Corners[j])) &&
      (forall j | 0 <= j < 4 ::
        Dot("self", Postfixes[j]) in r.aliases && r.aliases[Dot("self", Postfixes[j])] == Dot(base, Postfixes[j])) &&
      (forall j | |Separators(str)| < j < 4 :: r.GetVar(Dot(base, Postfixes[j])) == UndefVar)
  {
    LineCheckNone(str);
    var base := prefix + name;
    var cuts := Separators(str);
    var e0 := SelfAliases(env, base, 4);
    var e1 := Fields(e0, section, base, name, str, cuts, eval);
    LastFieldFrame(e1, section, base, name, str, cuts, eval);
    LastFieldWidget(e1, section, base, name, str, cuts, eval);
    DotsDistinct(base);
    CornersDistinct();
    forall j | 0 <= j < 4
      ensures !Named("prev", Dot("self", Postfixes[j]), Corners, 6)
    {
      forall k | 0 <= k < 6
        ensures Dot("self", Postfixes[j]) != Dot("prev", Corners[k])
      {
        assert Dot("self", Postfixes[j])[0] == 's';
        assert Dot("prev", Corners[k])[0] == 'p';
      }
    }
    forall j | |cuts| < j < 4
      ensures e1.GetVar(Dot(base, Postfixes[j])) == UndefVar
    {
      assert !Named(base, Dot(base, Postfixes[j]), Postfixes, |cuts|);
    }
  }

  /** A line changes only the variables and aliases of its own widget. */
  lemma LineEffectFrame(env: Env, section: string, prefix: string, name: string, str: string,
                        eval: Evaluate)
    requires LineCheck(str) == None
    ensures var r := LineEffect(env, section, prefix, name, str, eval);
      r.defs == env.defs && r.sectionAliases == env.sectionAliases &&
      (forall key | key != name && !Named(prefix + name, key, Corners, 6) :: Agree(r.vars, env.vars, key)) &&
      (forall key | !Named("self", key, Postfixes, 4) && !Named("prev", key, Corners, 6) ::
        Agree(r.aliases, env.aliases, key))
  {
    LineCheckNone(str);
    var base := prefix + name;
    var cuts := Separators(str);
    var e0 := SelfAliases(env, base, 4);
    var e1 := Fields(e0, section, base, name, str, cuts, eval);
    LastFieldFrame(e1, section, base, name, str, cuts, eval);
    CornersDistinct();
    NamedMono(base, Postfixes, |cuts|, 4);
    forall key | !Named(base, key, Corners, 6)
      ensures !Named(base, key, Postfixes, 4)
    {
    }
  }

  // ---------------------------------------------------------------------
  // The reach of one line's fields beyond `postfixes`
  // ---------------------------------------------------------------------

  /** The loop, as written, meets a fifth field at `str[j]` before any error. */
  predicate OverrunAt(str: string, j: nat)
    requires j < |str|
  {
    NoExtraClose(str, j) && TopSpace(str, j) && |Cuts(str, j)| == 4
  }

  /**
   * The values for which `processSingleLine` as written reads
   * `postfixes[4]`, one past its four entries: inside the loop at a fifth
   * separator, or after the loop for a balanced value of five fields.
   */
  predicate ReadsPastPostfixes(str: string) {
    (exists j | 0 <= j < |str| :: OverrunAt(str, j)) ||
    (Balanced(str) && |Separators(str)| == 4)
  }

  lemma {:induction false} TooManyFieldsAt(str: string, i: nat)
    requires i <= |str|
    ensures ScanError(str, i) == Some(TooManyFields) <==> exists j | 0 <= j < i :: OverrunAt(str, j)
  {
    if i > 0 {
      TooManyFieldsAt(str, i - 1);
      if ScanError(str, i - 1) == None {
        assert forall j | 0 <= j < i - 1 :: !OverrunAt(str, j);
        assert ScanError(str, i) == Some(TooManyFields) <==> OverrunAt(str, i - 1) by {
          ScanErrorNone(str, i - 1);
        }
      } else {
        assert !OverrunAt(str, i - 1) by {
          ScanErrorNone(str, i - 1);
        }
      }
    }
  }

  /** The model reports `TooManyFields` exactly where the source reads past `postfixes`. */
  lemma OverrunIsTooManyFields(str: string)
    ensures ReadsPastPostfixes(str) <==> LineCheck(str) == Some(TooManyFields)
  {
    TooManyFieldsAt(str, |str|);
    ScanErrorNone(str, |str|);
    if NoExtraClose(str, |str|) {
      DepthNonNegative(str, |str|);
    }
  }

  /** A value without parentheses stays at depth zero throughout. */
  lemma {:induction false} FlatDepth(str: string, i: nat)
    requires i <= |str|
    requires forall j | 0 <= j < i :: Delta(str[j]) == 0
    ensures forall k | 0 <= k <= i :: Depth(str, k) == 0
  {
    if i > 0 {
      FlatDepth(str, i - 1);
    }
  }

  /** A value without parentheses. */
  predicate Flat(str: string) {
    forall j | 0 <= j < |str| :: Delta(str[j]) == 0
  }

  /** A value without parentheses is balanced. */
  lemma FlatBalanced(str: string)
    requires Flat(str)
    ensures Balanced(str)
  {
    FlatDepth(str, |str|);
    forall j | 0 <= j < |str|
      ensures !ExtraClose(str, j)
    {
      assert Delta(str[j]) == 0;
    }
  }

  /** `str[i]` is a word character and `str[i + 1]` a space. */
  predicate WordSpace(str: string, i: nat) {
    i + 2 <= |str| && !IsSpace(str[i]) && IsSpace(str[i + 1])
  }

  /** In a value without parentheses, a word character and a space add one separator. */
  lemma CutsWordSpace(str: string, i: nat)
    requires Flat(str) && WordSpace(str, i)
    ensures |Cuts(str, i + 2)| == |Cuts(str, i)| + 1
  {
    FlatDepth(str, i + 2);
    assert Cuts(str, i + 1) == Cuts(str, i);
  }

  /**
   * Four word-and-space pairs and a last word character, without
   * parentheses: five fields, balanced.
   */
  lemma FiveFieldsShape(s: string)
    requires |s| == 9 && Flat(s)
    requires WordSpace(s, 0) && WordSpace(s, 2) && WordSpace(s, 4) && WordSpace(s, 6) && !IsSpace(s[8])
    ensures Balanced(s) && |Separators(s)| == 4
  {
    FlatBalanced(s);
    assert |Cuts(s, 2)| == 1 by {
      CutsWordSpace(s, 0);
    }
    assert |Cuts(s, 4)| == 2 by {
      CutsWordSpace(s, 2);
    }
    assert |Cuts(s, 6)| == 3 by {
      CutsWordSpace(s, 4);
    }
    assert |Cuts(s, 8)| == 4 by {
      CutsWordSpace(s, 6);
    }
    assert Cuts(s, 9) == Cuts(s, 8) by {
      assert !TopSpace(s, 8);
    }
  }

  /** `w=1 2 3 4 5`: balanced, five fields, so the source reads `postfixes[4]`. */
  lemma FiveFieldsReadPastPostfixes()
    ensures ReadsPastPostfixes("1 2 3 4 5")
    ensures LineCheck("1 2 3 4 5") == Some(TooManyFields)
  {
    FiveFieldsShape("1 2 3 4 5");
    OverrunIsTooManyFields("1 2 3 4 5");
  }

  // ---------------------------------------------------------------------
  // Sections
  // ---------------------------------------------------------------------

  datatype Entry = Entry(key: string, value: string)

  /** A parsed theme file: each section's entries in file order. */
  type Config = map<string, seq<Entry>>

  predicate HasPrefix(s: string, p: string) {
    |p| <= |s| && s[..|p|] == p
  }

  datatype ThemeError =
    | BadLine(section: string, key: string, line: LineError)
    | SelfUse(section: string)
    | UndefinedUse(section: string)
    | MissingUseArgs
    | CyclicUse(section: string)

  datatype Outcome = Done(env: Env) | Failed(error: ThemeError)

  /** `strchr`: the index of the first `c`, or `|s|` when there is none. */
  function IndexOf(s: string, c: char): (k: nat)
    ensures k <= |s| && c !in s[..k]
    ensures k < |s| ==> s[k] == c
    ensures c !in s ==> k == |s|
  {
    if |s| == 0 then 0
    else if s[0] == c then 0
    else
      var k := 1 + IndexOf(s[1..], c);
      assert s[..k] == [s[0]] + s[1..][..k - 1];
      k
  }

  /** `strrchr`: the index of the last `c`, or -1 when there is none. */
  function LastIndexOf(s: string, c: char): (k: int)
    ensures -1 <= k < |s| && forall j | k < j < |s| :: s[j] != c
    ensures k >= 0 ==> s[k] == c
  {
    if |s| == 0 then -1
    else if s[|s| - 1] == c then |s| - 1
    else LastIndexOf(s[..|s| - 1], c)
  }

  /** A space at `k` with none before it is the one `strchr` finds. */
  lemma {:induction false} IndexOfAt(s: string, c: char, k: nat)
    requires k < |s| && s[k] == c && c !in s[..k]
    ensures IndexOf(s, c) == k
  {
    if k > 0 {
      assert s[0] == s[..k][0];
      assert s[1..][..k - 1] == s[1..k];
      assert s[1..k] == s[..k][1..];
      IndexOfAt(s[1..], c, k - 1);
    }
  }

  /** A space at `k` with none after it is the one `strrchr` finds. */
  lemma {:induction false} LastIndexOfAt(s: string, c: char, k: nat)
    requires k < |s| && s[k] == c && c !in s[k + 1..]
    ensures LastIndexOf(s, c) == k
  {
    if k < |s| - 1 {
      assert s[|s| - 1] == s[k + 1..][|s| - 2 - k];
      assert s[..|s| - 1][k + 1..] == s[k + 1..|s| - 1];
      assert s[k + 1..|s| - 1] == s[k + 1..][..|s| - 2 - k];
      LastIndexOfAt(s[..|s| - 1], c, k);
    }
  }

  /** The section named by a `useWithPrefix` value: the text before its first space. */
  function UseSection(value: string): (n: string)
    ensures ' ' !in n && |n| <= |value| && value[..|n|] == n
    ensures ' ' in value ==> |n| < |value| && value[|n|] == ' '
  {
    value[..IndexOf(value, ' ')]
  }

  /** The prefix named by a `useWithPrefix` value: the text after its last space. */
  function UsePrefix(value: string): (pref: string)
    ensures ' ' !in pref && |pref| <= |value| && value[|value| - |pref|..] == pref
    ensures ' ' in value ==> |pref| < |value| && value[|value| - |pref| - 1] == ' '
  {
    var start := LastIndexOf(value, ' ') + 1;
    assert forall j | 0 <= j < |value| - start :: value[start..][j] == value[start + j];
    value[start..]
  }

  /**
   * The two words of a `useWithPrefix` value, the section and the prefix;
   * none without a space.
   */
  function SplitUse(value: string): (r: Option<(string, string)>)
    ensures r.None? <==> ' ' !in value
  {
    if ' ' in value then Some((UseSection(value), UsePrefix(value))) else None
  }

  /** With a single space, `useWithPrefix` reads back its two words. */
  lemma SplitUseRoundTrip(n: string, pref: string)
    requires ' ' !in n && ' ' !in pref
    ensures SplitUse(n + " " + pref) == Some((n, pref))
  {
    var value := n + " " + pref;
    assert value[..|n|] == n;
    assert value[|n| + 1..] == pref;
    IndexOfAt(value, ' ', |n|);
    LastIndexOfAt(value, ' ', |n|);
  }

  /**
   * `processResSection(config, name, skipDefs, prefix)` from the `i`th
   * entry on. `active` holds the sections being read by the `use` chain
   * that led here.
   */
  function Apply(env: Env, config: Config, name: string, i: nat, skipDefs: bool, prefix: string,
                 active: set<string>, eval: Evaluate): Outcome
    requires name in config && i <= |config[name]|
    decreases config.Keys - active, |config[name]| - i
  {
    var entries := config[name];
    if i == |entries| then Done(env)
    else
      var key := entries[i].key;
      var value := entries[i].value;
      if key == "set_parent" then
        Apply(SpecialAliases(env, "parent", prefix + value, 6), config, name, i + 1, skipDefs, prefix, active, eval)
      else if HasPrefix(key, "set_") then
        Apply(env.SetSectionAlias(name, key, prefix + value), config, name, i + 1, skipDefs, prefix, active, eval)
      else if HasPrefix(key, "def_") then
        var e := if skipDefs then env else env.SetDef(name, prefix + key, value);
        Apply(e, config, name, i + 1, skipDefs, prefix, active, eval)
      else if key == "use" || key == "useWithPrefix" then
        var target := if key == "use" then Some((value, "")) else SplitUse(value);
        if target.None? then Failed(MissingUseArgs)
        else
          var (n, pref) := target.value;
          if n == name then Failed(SelfUse(n))
          else if n !in config then Failed(UndefinedUse(n))
          else if n in active then Failed(CyclicUse(n))
          else
            match Apply(env, config, n, 0, true, pref, active + {n}, eval)
            case Failed(err) => Failed(err)
            case Done(e) => Apply(e, config, name, i + 1, skipDefs, prefix, active, eval)
      else if LineCheck(value).Some? then
        Failed(BadLine(name, key, LineCheck(value).value))
      else
        Apply(LineEffect(env, name, prefix, key, value, eval), config, name, i + 1, skipDefs, prefix, active, eval)
  }

  /** The definitions the `def_` entries from the `i`th on store, the last one of a name winning. */
  function StoredDefs(defs: map<(string, string), string>, section: string, prefix: string,
                      entries: seq<Entry>, i: nat): map<(string, string), string>
    requires i <= |entries|
    decreases |entries| - i
  {
    if i == |entries| then defs
    else
      var key := entries[i].key;
      var d := if HasPrefix(key, "def_") && !HasPrefix(key, "set_") && key != "set_parent"
               then defs[(section, prefix + key) := entries[i].value] else defs;
      StoredDefs(d, section, prefix, entries, i + 1)
  }

  /** A section read through `use` (with `skipDefs`) stores no definitions, however deep the chain. */
  lemma {:induction false} SkipDefsKeepsDefs(env: Env, config: Config, name: string, i: nat, prefix: string,
                                             active: set<string>, eval: Evaluate)
    requires name in config && i <= |config[name]|
    ensures Apply(env, config, name, i, true, prefix, active, eval).Done? ==>
      Apply(env, config, name, i, true, prefix, active, eval).env.defs == env.defs
    decreases config.Keys - active, |config[name]| - i
  {
    var entries := config[name];
    if i < |entries| {
      var key := entries[i].key;
      var value := entries[i].value;
      if key == "set_parent" {
        SkipDefsKeepsDefs(SpecialAliases(env, "parent", prefix + value, 6), config, name, i + 1, prefix, active, eval);
      } else if HasPrefix(key, "set_") {
        SkipDefsKeepsDefs(env.SetSectionAlias(name, key, prefix + value), config, name, i + 1, prefix, active, eval);
      } else if HasPrefix(key, "def_") {
        SkipDefsKeepsDefs(env, config, name, i + 1, prefix, active, eval);
      } else if key == "use" || key == "useWithPrefix" {
        var target := if key == "use" then Some((value, "")) else SplitUse(value);
        if target.Some? {
          var (n, pref) := target.value;
          if n != name && n in config && n !in active {
            SkipDefsKeepsDefs(env, config, n, 0, pref, active + {n}, eval);
            var inner := Apply(env, config, n, 0, true, pref, active + {n}, eval);
            if inner.Done? {
              SkipDefsKeepsDefs(inner.env, config, name, i + 1, prefix, active, eval);
            }
          }
        }
      } else if LineCheck(value).None? {
        LineEffectFrame(env, name, prefix, key, value, eval);
        SkipDefsKeepsDefs(LineEffect(env, name, prefix, key, value, eval), config, name, i + 1, prefix, active, eval);
      }
    }
  }

  /**
   * A section read from the top stores exactly its own `def_` entries, under
   * the section's name and the prefixed key: the sections it uses add none.
   */
  lemma {:induction false} DefsStored(env: Env, config: Config, name: string, i: nat, prefix: string,
                                      active: set<string>, eval: Evaluate)
    requires name in config && i <= |config[name]|
    ensures Apply(env, config, name, i, false, prefix, active, eval).Done? ==>
      Apply(env, config, name, i, false, prefix, active, eval).env.defs ==
      StoredDefs(env.defs, name, prefix, config[name], i)
    decreases |config[name]| - i
  {
    var entries := config[name];
    if i < |entries| {
      var key := entries[i].key;
      var value := entries[i].value;
      if key == "set_parent" {
        DefsStored(SpecialAliases(env, "parent", prefix + value, 6), config, name, i + 1, prefix, active, eval);
      } else if HasPrefix(key, "set_") {
        DefsStored(env.SetSectionAlias(name, key, prefix + value), config, name, i + 1, prefix, active, eval);
      } else if HasPrefix(key, "def_") {
        DefsStored(env.SetDef(name, prefix + key, value), config, name, i + 1, prefix, active, eval);
      } else if key == "use" || key == "useWithPrefix" {
        var target := if key == "use" then Some((value, "")) else SplitUse(value);
        if target.Some? {
          var (n, pref) := target.value;
          if n != name && n in config && n !in active {
            SkipDefsKeepsDefs(env, config, n, 0, pref, active + {n}, eval);
            var inner := Apply(env, config, n, 0, true, pref, active + {n}, eval);
            if inner.Done? {
              DefsStored(inner.env, config, name, i + 1, prefix, active, eval);
            }
          }
        }
      } else if LineCheck(value).None? {
        LineEffectFrame(env, name, prefix, key, value, eval);
        DefsStored(LineEffect(env, name, prefix, key, value, eval), config, name, i + 1, prefix, active, eval);
      }
    }
  }

  /** The `use` guard as written: it asks whether the section being read exists, not the one named. */
  predicate UseGuardAsWritten(config: Config, name: string, value: string) {
    value != name && name in config
  }

  /**
   * `[XxY]` with `use=Missing`: the guard as written lets the missing
   * section through; the model stops with `UndefinedUse`.
   */
  lemma UseGuardAdmitsMissing(eval: Evaluate)
    ensures var config: Config := map["XxY" := [Entry("use", "Missing")]];
      UseGuardAsWritten(config, "XxY", "Missing") && "Missing" !in config &&
      Apply(EmptyEnv, config, "XxY", 0, false, "", {"XxY"}, eval) == Failed(UndefinedUse("Missing"))
  {
    var config: Config := map["XxY" := [Entry("use", "Missing")]];
    assert !HasPrefix("use", "set_") && !HasPrefix("use", "def_");
  }

  // ---------------------------------------------------------------------
  // Loading a theme for a screen size
  // ---------------------------------------------------------------------

  /** The sections `loadTheme` reads, in order: any size, this width, this height, this size. */
  function SectionNames(width: int, height: int): seq<string> {
    ["XxY", FormatInt(width) + "xY", "Xx" + FormatInt(height), FormatInt(width) + "x" + FormatInt(height)]
  }

  /** The four section names differ, so no section is read twice. */
  lemma SectionNamesDistinct(width: int, height: int)
    ensures var names := SectionNames(width, height);
      forall i, j | 0 <= i < j < 4 :: names[i] != names[j]
  {
    var w := FormatInt(width);
    var h := FormatInt(height);
    var names := SectionNames(width, height);
    assert names[1][0] == w[0] && names[3][0] == w[0];
    assert names[2][2] == h[0];
    assert names[3][|w|..] == "x" + h;
    assert names[1][|w|..] == "xY";
    assert names[3][|w| + 1] == h[0];
  }

  /** The width and height can be read back from the section names. */
  lemma SectionNamesRoundTrip(width: int, height: int)
    ensures var names := SectionNames(width, height);
      |names[1]| > 2 && |names[2]| > 2 &&
      ParseInt(names[1][..|names[1]| - 2]) == width && ParseInt(names[2][2..]) == height
  {
    var names := SectionNames(width, height);
    assert names[1][..|names[1]| - 2] == FormatInt(width);
    assert names[2][2..] == FormatInt(height);
    FormatIntRoundTrip(width);
    FormatIntRoundTrip(height);
  }

  /** `if (config.hasSection(name)) processResSection(config, name)`. */
  function ApplyIfPresent(env: Env, config: Config, name: string, eval: Evaluate): Outcome {
    if name in config then Apply(env, config, name, 0, false, "", {name}, eval) else Done(env)
  }

  /** The sections of `names` read in order, stopping at the first error. */
  function ApplyAll(env: Env, config: Config, names: seq<string>, eval: Evaluate): Outcome
    decreases |names|
  {
    if names == [] then Done(env)
    else
      match ApplyIfPresent(env, config, names[0], eval)
      case Failed(err) => Failed(err)
      case Done(e) => ApplyAll(e, config, names[1..], eval)
  }

  /** Reading the sections of `names` from the `k`th on: the `k`th, then the rest. */
  lemma ApplyAllFrom(env: Env, config: Config, names: seq<string>, k: nat, eval: Evaluate)
    requires k < |names|
    ensures ApplyAll(env, config, names[k..], eval) ==
      match ApplyIfPresent(env, config, names[k], eval)
      case Failed(err) => Failed(err)
      case Done(e) => ApplyAll(e, config, names[k + 1..], eval)
  {
    assert names[k..][1..] == names[k + 1..];
  }

  /** A theme with none of the four sections changes nothing beyond the reset. */
  lemma {:induction false} NoSectionsNoChange(env: Env, config: Config, names: seq<string>, eval: Evaluate)
    requires forall k | 0 <= k < |names| :: names[k] !in config
    ensures ApplyAll(env, config, names, eval) == Done(env)
    decreases |names|
  {
    if names != [] {
      NoSectionsNoChange(env, config, names[1..], eval);
    }
  }

  // ---------------------------------------------------------------------
  // The theme object
  // ---------------------------------------------------------------------

  class Theme {
    /** `_evaluator`, by value. */
    var env: Env
    var loadedX: int
    var loadedY: int

    /** `setSpecialAlias`: `alias.<p>` names `target.<p>` for the six coordinates. */
    method SetSpecialAlias(alias: string, target: string)
      modifies this`env
      ensures env == SpecialAliases(old(env), alias, target, 6)
    {
      for k := 0 to 6
        invariant env == SpecialAliases(old(env), alias, target, k)
      {
        env := env.SetAlias(Dot(alias, Corners[k]), Dot(target, Corners[k]));
      }
    }

    /** `processSingleLine`: store `name=str` of section `section` under `prefix`. */
    method ProcessSingleLine(section: string, prefix: string, name: string, str: string,
                             eval: Evaluate) returns (err: Option<LineError>)
      modifies this`env
      ensures err == LineCheck(str)
      ensures err == None ==> env == LineEffect(old(env), section, prefix, name, str, eval)
    {
      var base := prefix + name;
      for k := 0 to 4
        invariant env == SelfAliases(old(env), base, k)
      {
        env := env.SetAlias(Dot("self", Postfixes[k]), Dot(base, Postfixes[k]));
        env := env.SetVar(Dot(base, Postfixes[k]), UndefVar);
      }
      var err', start, npostfix := StoreFields(section, base, name, str, eval);
      if err' != None {
        return err';
      }
      LineCheckNone(str);
      StoreLast(section, base, name, str, start, npostfix, Separators(str), eval);
      return None;
    }

    /** The last field of `processSingleLine`, the two edges and the `prev` alias. */
    method StoreLast(section: string, base: string, name: string, str: string, start: nat, npostfix: nat,
                     ghost cuts: seq<nat>, eval: Evaluate)
      requires |cuts| <= 3 && Increasing(cuts, |str|) && start == Start(cuts) && npostfix == |cuts|
      modifies this`env
      ensures env == LastField(old(env), section, base, name, str, cuts, eval)
    {
      var value := eval(env, str[start..], section, Dot(name, Postfixes[npostfix]), start);
      if npostfix == 0 {
        env := env.SetVar(name, value);
      } else {
        env := env.SetVar(Dot(base, Postfixes[npostfix]), value);
      }
      if npostfix == 3 {
        env := env.SetVar(Dot(base, "x2"), env.GetVar(Dot(base, "x")) + env.GetVar(Dot(base, "w")));
        env := env.SetVar(Dot(base, "y2"), env.GetVar(Dot(base, "y")) + env.GetVar(Dot(base, "h")));
      }
      if npostfix != 0 {
        SetSpecialAlias("prev", base);
      }
    }

    /** The state of the character loop of `processSingleLine` after `i` characters. */
    ghost predicate Scanning(str: string, i: nat, level: int, start: nat, npostfix: nat, cuts: seq<nat>,
                             env0: Env, section: string, base: string, name: string, eval: Evaluate)
      reads this
    {
      i <= |str| && level == Depth(str, i) && ScanError(str, i) == None && cuts == Cuts(str, i) &&
      npostfix == |cuts| <= 4 && start == Start(cuts) &&
      env == Fields(env0, section, base, name, str, cuts, eval)
    }

    /** One turn of the character loop: `str[i]` ends a field, or opens or closes a parenthesis. */
    method ScanChar(str: string, i: nat, level: int, start: nat, npostfix: nat, ghost cuts: seq<nat>,
                    ghost env0: Env, section: string, base: string, name: string, eval: Evaluate)
      returns (err: Option<LineError>, level': int, start': nat, npostfix': nat, ghost cuts': seq<nat>)
      requires i < |str| && Scanning(str, i, level, start, npostfix, cuts, env0, section, base, name, eval)
      modifies this`env
      ensures err == ScanError(str, i + 1)
      ensures err == None ==> Scanning(str, i + 1, level', start', npostfix', cuts', env0, section, base, name, eval)
    {
      level', start', npostfix', cuts' := level, start, npostfix, cuts;
      if IsSpace(str[i]) && level == 0 {
        if npostfix == 4 {
          return Some(TooManyFields), level', start', npostfix', cuts';
        }
        FieldsStep(env0, section, base, name, str, cuts, i, eval);
        var value := eval(env, str[start..i], section, Dot(name, Postfixes[npostfix]), start);
        env := env.SetVar(Dot(base, Postfixes[npostfix]), value);
        npostfix' := npostfix + 1;
        start' := i + 1;
        cuts' := cuts + [i];
      }
      if str[i] == '(' {
        level' := level + 1;
      }
      if str[i] == ')' {
        if level == 0 {
          return Some(ExtraParen(start')), level', start', npostfix', cuts';
        }
        level' := level - 1;
      }
      err := None;
    }

    /** The character loop of `processSingleLine` and its two checks after the loop. */
    method StoreFields(section: string, base: string, name: string, str: string, eval: Evaluate)
      returns (err: Option<LineError>, start: nat, npostfix: nat)
      modifies this`env
      ensures err == LineCheck(str)
      ensures err == None ==>
        LineCheck(str) == None && start == Start(Separators(str)) && npostfix == |Separators(str)| < 4 &&
        env == Fields(old(env), section, base, name, str, Separators(str), eval)
    {
      var level := 0;
      start := 0;
      npostfix := 0;
      ghost var cuts: seq<nat> := [];
      var i := 0;
      while i < |str|
        invariant i <= |str|
        invariant Scanning(str, i, level, start, npostfix, cuts, old(env), section, base, name, eval)
      {
        err, level, start, npostfix, cuts := ScanChar(str, i, level, start, npostfix, cuts, old(env), section, base, name, eval);
        if err != None {
          ScanErrorSticks(str, i + 1, |str|);
          return err, start, npostfix;
        }
        i := i + 1;
      }
      ScanErrorNone(str, |str|);
      DepthNonNegative(str, |str|);
      if level > 0 {
        return Some(MissingParen(start)), start, npostfix;
      }
      if npostfix == 4 {
        return Some(TooManyFields), start, npostfix;
      }
      return None, start, npostfix;
    }

    /**
     * `processResSection`: read the entries of section `name` in order.
     * `active` holds the sections whose reading is under way, so that a
     * cycle of `use` entries ends in `CyclicUse` instead of recursing.
     */
    method ProcessResSection(config: Config, name: string, skipDefs: bool, prefix: string,
                             active: set<string>, eval: Evaluate) returns (err: Option<ThemeError>)
      requires name in config
      modifies this`env
      ensures err.None? ==> Apply(old(env), config, name, 0, skipDefs, prefix, active, eval) == Done(env)
      ensures err.Some? ==> Apply(old(env), config, name, 0, skipDefs, prefix, active, eval) == Failed(err.value)
      decreases config.Keys - active, 1
    {
      var i := 0;
      while i < |config[name]|
        invariant i <= |config[name]|
        invariant Apply(old(env), config, name, 0, skipDefs, prefix, active, eval) ==
                  Apply(env, config, name, i, skipDefs, prefix, active, eval)
      {
        err := ProcessEntry(config, name, i, skipDefs, prefix, active, eval);
        if err.Some? {
          return;
        }
        i := i + 1;
      }
      return None;
    }

    /** One turn of the loop of `processResSection`: the `i`th entry of section `name`. */
    method ProcessEntry(config: Config, name: string, i: nat, skipDefs: bool, prefix: string,
                        active: set<string>, eval: Evaluate) returns (err: Option<ThemeError>)
      requires name in config && i < |config[name]|
      modifies this`env
      ensures err.None? ==> Apply(old(env), config, name, i, skipDefs, prefix, active, eval) ==
                            Apply(env, config, name, i + 1, skipDefs, prefix, active, eval)
      ensures err.Some? ==> Apply(old(env), config, name, i, skipDefs, prefix, active, eval) == Failed(err.value)
      decreases config.Keys - active, 0
    {
      var key := config[name][i].key;
      var value := config[name][i].value;
      err := None;
      if key == "set_parent" {
        SetSpecialAlias("parent", prefix + value);
      } else if HasPrefix(key, "set_") {
        env := env.SetSectionAlias(name, key, prefix + value);
      } else if HasPrefix(key, "def_") {
        if !skipDefs {
          env := env.SetDef(name, prefix + key, value);
        }
      } else if key == "use" || key == "useWithPrefix" {
        var n, pref := value, "";
        if key == "useWithPrefix" {
          var target := SplitUse(value);
          if target.None? {
            return Some(MissingUseArgs);
          }
          n, pref := target.value.0, target.value.1;
        }
        if n == name {
          return Some(SelfUse(n));
        }
        if n !in config {
          return Some(UndefinedUse(n));
        }
        if n in active {
          return Some(CyclicUse(n));
        }
        err := ProcessResSection(config, n, true, pref, active + {n}, eval);
      } else {
        var lineErr := ProcessSingleLine(name, prefix, key, value, eval);
        if lineErr.Some? {
          return Some(BadLine(name, key, lineErr.value));
        }
      }
    }

    /** `if (config.hasSection(name)) processResSection(config, name)`. */
    method ProcessIfPresent(config: Config, name: string, eval: Evaluate) returns (err: Option<ThemeError>)
      modifies this`env
      ensures err.None? ==> ApplyIfPresent(old(env), config, name, eval) == Done(env)
      ensures err.Some? ==> ApplyIfPresent(old(env), config, name, eval) == Failed(err.value)
    {
      err := None;
      if name in config {
        err := ProcessResSection(config, name, false, "", {name}, eval);
      }
    }

    /**
     * `loadTheme` for an overlay of `width` by `height`: after an optional
     * reset, the sections `XxY`, `<width>xY`, `Xx<height>` and
     * `<width>x<height>` are read in that order where present.
     */
    method LoadTheme(config: Config, reset: bool, width: int, height: int, eval: Evaluate)
      returns (err: Option<ThemeError>)
      modifies this`env
      ensures var r := ApplyAll(if reset then EmptyEnv else old(env), config, SectionNames(width, height), eval);
        (err.None? ==> r == Done(env)) && (err.Some? ==> r == Failed(err.value))
    {
      if reset {
        env := EmptyEnv;
      }
      ghost var names := SectionNames(width, height);
      ghost var env0 := env;
      err := ProcessIfPresent(config, "XxY", eval);
      ApplyAllFrom(env0, config, names, 0, eval);
      if err.Some? {
        return;
      }
      ghost var env1 := env;
      err := ProcessIfPresent(config, FormatInt(width) + "xY", eval);
      ApplyAllFrom(env1, config, names, 1, eval);
      if err.Some? {
        return;
      }
      ghost var env2 := env;
      err := ProcessIfPresent(config, "Xx" + FormatInt(height), eval);
      ApplyAllFrom(env2, config, names, 2, eval);
      if err.Some? {
        return;
      }
      ghost var env3 := env;
      err := ProcessIfPresent(config, FormatInt(width) + "x" + FormatInt(height), eval);
      ApplyAllFrom(env3, config, names, 3, eval);
      assert names[4..] == [];
    }

    /**
     * `isThemeLoadingRequired`: whether the overlay size differs from the
     * one the theme was last loaded for; the new size is remembered.
     */
    method IsThemeLoadingRequired(width: int, height: int) returns (required: bool)
      modifies this`loadedX, this`loadedY
      ensures required <==> !(old(loadedX) == width && old(loadedY) == height)
      ensures loadedX == width && loadedY == height
    {
      if loadedX == width && loadedY == height {
        return false;
      }
      loadedX := width;
      loadedY := height;
      return true;
    }
  }
}
