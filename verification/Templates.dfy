/** Template variable substitution (internal/httpapi/server.go:1336-1341).

    resolveTemplate runs strings.ReplaceAll once per variable, in Go's random map order. This
    module shows when that sequence of rewrites equals one simultaneous substitution. */
module Templates {
  import opened Common

  /** strings.ReplaceAll for a non-empty pattern: leftmost, non-overlapping, left to right. */
  function ReplaceAll(s: string, from: string, to: string): string
    requires from != ""
  {
    if |s| < |from| then s
    else if from <= s then to + ReplaceAll(s[|from|..], from, to)
    else [s[0]] + ReplaceAll(s[1..], from, to)
  }

  function Token(name: string): string {
    "{{" + name + "}}"
  }

  /** The loop of resolveTemplate over an iteration order. */
  function Resolve(body: string, vars: map<string, string>, order: seq<string>): string
    requires forall k <- order :: k in vars
    decreases |order|
  {
    if order == [] then body
    else Resolve(ReplaceAll(body, Token(order[0]), vars[order[0]]), vars, order[1..])
  }

  /** One iteration order of a map: every key once. */
  predicate IterationOrder(order: seq<string>, vars: map<string, string>) {
    && (forall k <- order :: k in vars)
    && (forall k <- vars :: k in order)
    && Distinct(order)
  }

  method ResolveTemplate(body: string, vars: map<string, string>, order: seq<string>) returns (resolved: string)
    requires IterationOrder(order, vars)
    ensures resolved == Resolve(body, vars, order)
  {
    resolved := body;
    for i := 0 to |order|
      invariant Resolve(resolved, vars, order[i..]) == Resolve(body, vars, order)
    {
      assert order[i..][0] == order[i] && order[i..][1..] == order[i + 1..];
      resolved := ReplaceAll(resolved, "{{" + order[i] + "}}", vars[order[i]]);
    }
  }

  // ---------------------------------------------------------------- templates as segments

  datatype Segment = Literal(text: string) | Variable(name: string)

  function Show(seg: Segment): string {
    match seg
    case Literal(t) => t
    case Variable(n) => Token(n)
  }

  function Render(segs: seq<Segment>): string {
    if segs == [] then "" else Show(segs[0]) + Render(segs[1..])
  }

  function Replaced(seg: Segment, vars: map<string, string>): Segment {
    if seg.Variable? && seg.name in vars then Literal(vars[seg.name]) else seg
  }

  /** All variables at once; unknown ones stay. */
  function Substitute(segs: seq<Segment>, vars: map<string, string>): seq<Segment> {
    if segs == [] then [] else [Replaced(segs[0], vars)] + Substitute(segs[1..], vars)
  }

  /** The two braces. */
  const Open: char := '{'
  const Close: char := '}'

  predicate BraceFree(s: string) {
    Open !in s && Close !in s
  }

  /** Names have no brace at all, and no literal contains the given brace. */
  predicate Tidy(segs: seq<Segment>, brace: char) {
    forall i | 0 <= i < |segs| ::
      match segs[i]
      case Literal(t) => brace !in t
      case Variable(n) => BraceFree(n)
  }

  // ---------------------------------------------------------------- where a token can occur

  /** A brace-free key matches at a token exactly when it is the token's name. */
  lemma MatchAtToken(k: string, n: string, rest: string)
    requires BraceFree(k) && BraceFree(n)
    ensures Token(k) <= Token(n) + rest <==> k == n
  {
    var s := Token(n) + rest;
    assert s[2 + |n|] == Close && forall i | 0 <= i < |n| :: s[2 + i] == n[i] && n[i] in n;
    assert Token(k)[2 + |k|] == Close && forall i | 0 <= i < |k| :: Token(k)[2 + i] == k[i] && k[i] in k;
  }

  /** No token starts where the text does not start with two opening braces. */
  lemma NoMatchWithoutBraces(k: string, s: string)
    requires |s| < 2 || s[0] != Open || s[1] != Open
    ensures !(Token(k) <= s)
  {
    assert Token(k)[0] == Open && Token(k)[1] == Open;
  }

  /** One character at which no token starts is copied. */
  lemma CopyOne(k: string, v: string, s: string)
    requires s != "" && !(Token(k) <= s)
    ensures ReplaceAll(s, Token(k), v) == [s[0]] + ReplaceAll(s[1..], Token(k), v)
  {
    if |s| < |Token(k)| {
      ShortCopies(s[1..], k, v);
      assert [s[0]] + s[1..] == s;
    }
  }

  /** Text in front of which no token starts is copied. */
  lemma {:induction false} CopyThrough(k: string, v: string, a: string, rest: string)
    requires forall i | 0 <= i < |a| :: !(Token(k) <= a[i..] + rest)
    ensures ReplaceAll(a + rest, Token(k), v) == a + ReplaceAll(rest, Token(k), v)
  {
    if a == "" {
      assert a + rest == rest;
    } else {
      assert a[0..] == a && (a + rest)[1..] == a[1..] + rest;
      CopyOne(k, v, a + rest);
      forall i | 0 <= i < |a[1..]| ensures !(Token(k) <= a[1..][i..] + rest) {
        assert a[1..][i..] == a[i + 1..];
      }
      CopyThrough(k, v, a[1..], rest);
      assert [a[0]] + (a[1..] + ReplaceAll(rest, Token(k), v)) == a + ReplaceAll(rest, Token(k), v);
    }
  }

  lemma ShortCopies(s: string, k: string, v: string)
    requires |s| < |Token(k)|
    ensures ReplaceAll(s, Token(k), v) == s
  {
  }

  /** No match runs from text into a following token. */
  lemma NoMatchIntoToken(k: string, a: string, n: string, rest: string)
    requires BraceFree(k) && a != "" && !(Token(k) <= a)
    ensures !(Token(k) <= a + (Token(n) + rest))
  {
    var t, s := Token(k), a + (Token(n) + rest);
    assert s[|a|] == Open && s[|a| + 1] == Open;
    assert t[|k| + 2] == t[|k| + 3] == Close && forall i | 2 <= i < |k| + 2 :: t[i] == k[i - 2] && t[i] in k;
    if |t| <= |a| {
      assert s[..|t|] == a[..|t|];
    }
  }

  lemma NoMatchWithoutClose(k: string, a: string)
    requires Close !in a
    ensures !(Token(k) <= a)
  {
    assert Token(k)[|k| + 2] == Close;
    assert forall i | 0 <= i < |a| :: a[i] in a;
  }

  /** In front of a template whose literals have no closing brace, text without one starts no match. */
  lemma {:induction false} NoMatchBeforeOpenText(k: string, a: string, segs: seq<Segment>)
    requires BraceFree(k) && Tidy(segs, Close) && a != "" && Close !in a
    ensures !(Token(k) <= a + Render(segs))
    decreases |segs|
  {
    if segs == [] {
      NoMatchWithoutClose(k, a);
      assert a + Render(segs) == a;
    } else if segs[0].Literal? {
      NoMatchBeforeOpenText(k, a + segs[0].text, segs[1..]);
      Regroup(a, segs[0].text, Render(segs[1..]));
    } else {
      NoMatchWithoutClose(k, a);
      NoMatchIntoToken(k, a, segs[0].name, Render(segs[1..]));
    }
  }

  // ---------------------------------------------------------------- one variable

  /** Inside a token that is not the key's, and across its end, nothing matches. */
  lemma TokenIsCopied(k: string, v: string, n: string, rest: string)
    requires BraceFree(k) && BraceFree(n) && n != k
    ensures ReplaceAll(Token(n) + rest, Token(k), v) == Token(n) + ReplaceAll(rest, Token(k), v)
  {
    forall i | 0 <= i < |Token(n)| ensures !(Token(k) <= Token(n)[i..] + rest) {
      var s := Token(n)[i..] + rest;
      if i == 0 {
        assert Token(n)[0..] == Token(n);
        MatchAtToken(k, n, rest);
      } else {
        assert s[0] == Token(n)[i];
        if i == 1 {
          assert s[1] == Token(n)[2];
          assert Token(n)[2] == Close || (|n| > 0 && Token(n)[2] == n[0] && n[0] in n);
        } else if i < |n| + 2 {
          assert Token(n)[i] == n[i - 2] && n[i - 2] in n;
        }
        NoMatchWithoutBraces(k, s);
      }
    }
    CopyThrough(k, v, Token(n), rest);
  }

  /** Literal text in front of a tidy template is copied. */
  lemma LiteralIsCopied(k: string, v: string, a: string, segs: seq<Segment>, brace: char)
    requires BraceFree(k) && brace in {Open, Close} && brace !in a && Tidy(segs, brace)
    ensures ReplaceAll(a + Render(segs), Token(k), v) == a + ReplaceAll(Render(segs), Token(k), v)
  {
    forall i | 0 <= i < |a| ensures !(Token(k) <= a[i..] + Render(segs)) {
      assert a[i..][0] == a[i] && a[i] in a;
      if brace == Open {
        NoMatchWithoutBraces(k, a[i..] + Render(segs));
      } else {
        NoMatchBeforeOpenText(k, a[i..], segs);
      }
    }
    CopyThrough(k, v, a, Render(segs));
  }

  /** Replacing one variable in the text is substituting it in the segments, whatever the value. */
  lemma {:induction false} ReplaceIsSubstitute(segs: seq<Segment>, k: string, v: string, brace: char)
    requires brace in {Open, Close} && Tidy(segs, brace) && BraceFree(k)
    ensures ReplaceAll(Render(segs), Token(k), v) == Render(Substitute(segs, map[k := v]))
  {
    if segs != [] {
      var rest := segs[1..];
      ReplaceIsSubstitute(rest, k, v, brace);
      match segs[0]
      case Literal(t) =>
        LiteralIsCopied(k, v, t, rest, brace);
      case Variable(n) =>
        if n == k {
          var s := Token(k) + Render(rest);
          assert s[|Token(k)|..] == Render(rest);
        } else {
          TokenIsCopied(k, v, n, Render(rest));
        }
    }
  }

  lemma {:induction false} SubstituteIsTidy(segs: seq<Segment>, k: string, v: string, brace: char)
    requires Tidy(segs, brace) && brace !in v
    ensures Tidy(Substitute(segs, map[k := v]), brace)
  {
    if segs != [] {
      SubstituteIsTidy(segs[1..], k, v, brace);
    }
  }

  // ---------------------------------------------------------------- all variables

  function Restrict(vars: map<string, string>, order: seq<string>): map<string, string> {
    map k | k in vars && k in order :: vars[k]
  }

  lemma {:induction false} SubstituteInTurn(segs: seq<Segment>, k: string, v: string, vars: map<string, string>)
    requires k !in vars
    ensures Substitute(Substitute(segs, map[k := v]), vars) == Substitute(segs, vars[k := v])
  {
    if segs != [] {
      SubstituteInTurn(segs[1..], k, v, vars);
      assert Substitute(segs, map[k := v])[1..] == Substitute(segs[1..], map[k := v]);
    }
  }

  lemma {:induction false} ResolveIsSubstitute(
    segs: seq<Segment>, vars: map<string, string>, order: seq<string>, brace: char)
    requires brace in {Open, Close} && Tidy(segs, brace)
    requires forall k <- vars :: BraceFree(k) && brace !in vars[k]
    requires (forall k <- order :: k in vars) && Distinct(order)
    ensures Resolve(Render(segs), vars, order) == Render(Substitute(segs, Restrict(vars, order)))
    decreases |order|
  {
    if order == [] {
      SubstituteNothing(segs);
      assert Restrict(vars, order) == map[];
    } else {
      var k, rest := order[0], order[1..];
      DistinctTail(order);
      ReplaceIsSubstitute(segs, k, vars[k], brace);
      SubstituteIsTidy(segs, k, vars[k], brace);
      ResolveIsSubstitute(Substitute(segs, map[k := vars[k]]), vars, rest, brace);
      SubstituteInTurn(segs, k, vars[k], Restrict(vars, rest));
      assert Restrict(vars, rest)[k := vars[k]] == Restrict(vars, order);
    }
  }

  lemma {:induction false} SubstituteNothing(segs: seq<Segment>)
    ensures Substitute(segs, map[]) == segs
  {
    if segs != [] {
      SubstituteNothing(segs[1..]);
    }
  }

  /** Confluence: for brace-free names, when no literal and no value contains an opening brace, or
      none contains a closing one, every iteration order gives the simultaneous substitution. */
  lemma Confluence(segs: seq<Segment>, vars: map<string, string>, order: seq<string>)
    requires IterationOrder(order, vars)
    requires forall k <- vars :: BraceFree(k)
    requires exists brace <- {Open, Close} :: Tidy(segs, brace) && forall k <- vars :: brace !in vars[k]
    ensures Resolve(Render(segs), vars, order) == Render(Substitute(segs, vars))
  {
    var brace :| brace in {Open, Close} && Tidy(segs, brace) && forall k <- vars :: brace !in vars[k];
    ResolveIsSubstitute(segs, vars, order, brace);
    assert Restrict(vars, order) == vars;
  }

  // ---------------------------------------------------------------- every order, every body

  /** No brace outside the tokens. */
  predicate Plain(segs: seq<Segment>) {
    Tidy(segs, Open) && Tidy(segs, Close)
  }

  /** Every order gives the simultaneous substitution, for every body. */
  ghost predicate OrderIndependent(vars: map<string, string>) {
    forall segs, order | Plain(segs) && IterationOrder(order, vars) ::
      Resolve(Render(segs), vars, order) == Render(Substitute(segs, vars))
  }

  lemma {:induction false} RenderConcat(a: seq<Segment>, b: seq<Segment>)
    ensures Render(a + b) == Render(a) + Render(b)
  {
    if a == [] {
      assert a + b == b;
    } else {
      RenderConcat(a[1..], b);
      FromTheFront(a, b);
      Regroup(Show(a[0]), Render(a[1..]), Render(b));
    }
  }

  /** Variables that stand for their own tokens change nothing. */
  lemma {:induction false} SelfTokensStay(segs: seq<Segment>, vars: map<string, string>)
    requires forall n <- vars | Variable(n) in segs :: vars[n] == Token(n)
    ensures Render(Substitute(segs, vars)) == Render(segs)
  {
    if segs != [] {
      assert segs[0] in segs && forall x <- segs[1..] :: x in segs;
      SelfTokensStay(segs[1..], vars);
      assert Substitute(segs, vars)[1..] == Substitute(segs[1..], vars);
    }
  }

  lemma {:induction false} ResolveConcat(body: string, vars: map<string, string>, o: seq<string>, p: seq<string>)
    requires (forall k <- o :: k in vars) && (forall k <- p :: k in vars)
    ensures forall k <- o + p :: k in vars
    ensures Resolve(body, vars, o + p) == Resolve(Resolve(body, vars, o), vars, p)
    decreases |o|
  {
    if o == [] {
      assert o + p == p;
    } else {
      ResolveConcat(ReplaceAll(body, Token(o[0]), vars[o[0]]), vars, o[1..], p);
      assert (o + p)[1..] == o[1..] + p;
    }
  }

  lemma {:induction false} Enumerate(keys: set<string>) returns (order: seq<string>)
    ensures (forall k <- order :: k in keys) && (forall k <- keys :: k in order)
    ensures Distinct(order)
  {
    if keys == {} {
      order := [];
    } else {
      var k :| k in keys;
      var rest := Enumerate(keys - {k});
      order := [k] + rest;
    }
  }

  // ---------------------------------------------------------------- arbitrary values

  /** A piece of a partly resolved text: literal text, a token, or the value of a variable. */
  datatype Piece = Words(text: string) | Hole(name: string) | Value(name: string)

  function Shown(p: Piece, vars: map<string, string>): string {
    match p
    case Words(t) => t
    case Hole(n) => Token(n)
    case Value(n) => if n in vars then vars[n] else ""
  }

  function ShowAll(ps: seq<Piece>, vars: map<string, string>): string {
    if ps == [] then "" else Shown(ps[0], vars) + ShowAll(ps[1..], vars)
  }

  /** Brace-free text and values of the given variables, in any number and order. */
  predicate WithoutHole(ps: seq<Piece>, names: set<string>) {
    forall i | 0 <= i < |ps| ::
      match ps[i]
      case Words(t) => BraceFree(t)
      case Hole(_) => false
      case Value(n) => n in names
  }

  ghost predicate Contains(s: string, t: string) {
    exists i | 0 <= i <= |s| :: t <= s[i..]
  }

  /** Brace-free text and values of these variables can be put side by side so that b's token appears
      in them. */
  ghost predicate Collides(vars: map<string, string>, b: string, names: set<string>) {
    exists ps :: WithoutHole(ps, names) && Contains(ShowAll(ps, vars), Token(b))
  }

  /** Among these variables, no token can appear in the values of the others, except one that stands
      for itself. */
  ghost predicate ClearAmong(vars: map<string, string>, names: set<string>) {
    forall b <- names :: b in vars && (vars[b] == Token(b) || !Collides(vars, b, names - {b}))
  }

  ghost predicate Clear(vars: map<string, string>) {
    ClearAmong(vars, vars.Keys)
  }

  lemma FewerCollideLess(vars: map<string, string>, b: string, fewer: set<string>, names: set<string>)
    requires fewer <= names && !Collides(vars, b, names)
    ensures !Collides(vars, b, fewer)
  {
    forall ps | WithoutHole(ps, fewer) ensures !Contains(ShowAll(ps, vars), Token(b)) {
      assert WithoutHole(ps, names);
    }
  }

  lemma {:induction false} ShowConcat(a: seq<Piece>, b: seq<Piece>, vars: map<string, string>)
    ensures ShowAll(a + b, vars) == ShowAll(a, vars) + ShowAll(b, vars)
  {
    if a == [] {
      assert a + b == b;
    } else {
      ShowConcat(a[1..], b, vars);
      FromTheFront(a, b);
      Regroup(Shown(a[0], vars), ShowAll(a[1..], vars), ShowAll(b, vars));
    }
  }

  /** The body after the variables in `done` were resolved. */
  function Mark(segs: seq<Segment>, done: set<string>): (ps: seq<Piece>)
    ensures |ps| == |segs|
  {
    if segs == [] then []
    else
      [match segs[0]
       case Literal(t) => Words(t)
       case Variable(n) => if n in done then Value(n) else Hole(n)] + Mark(segs[1..], done)
  }

  /** A run of text in which the token does not appear is copied, before a token or at the end. */
  lemma RunIsCopied(k: string, v: string, a: string, rest: string)
    requires BraceFree(k) && !Contains(a, Token(k))
    requires rest == "" || exists n, more :: rest == Token(n) + more
    ensures ReplaceAll(a + rest, Token(k), v) == a + ReplaceAll(rest, Token(k), v)
  {
    forall i | 0 <= i < |a| ensures !(Token(k) <= a[i..] + rest) {
      if rest == "" {
        assert a[i..] + rest == a[i..];
      } else {
        var n, more :| rest == Token(n) + more;
        NoMatchIntoToken(k, a[i..], n, more);
      }
    }
    CopyThrough(k, v, a, rest);
  }

  lemma JoinRun(run: seq<Piece>, p: Piece, vars: map<string, string>, rest: string)
    ensures ShowAll(run, vars) + (Shown(p, vars) + rest) == ShowAll(run + [p], vars) + rest
  {
    ShowConcat(run, [p], vars);
    assert ShowAll([p], vars) == Shown(p, vars);
    Regroup(ShowAll(run, vars), Shown(p, vars), rest);
  }

  /** Resolving k replaces its tokens and copies everything else; `run` is what stands before. */
  lemma {:induction false} ReplaceMarked(
    run: seq<Piece>, segs: seq<Segment>, done: set<string>, k: string, vars: map<string, string>)
    requires Plain(segs) && k in vars && BraceFree(k) && k !in done
    requires WithoutHole(run, done) && !Collides(vars, k, done)
    ensures ReplaceAll(ShowAll(run, vars) + ShowAll(Mark(segs, done), vars), Token(k), vars[k])
         == ShowAll(run, vars) + ShowAll(Mark(segs, done + {k}), vars)
    decreases |segs|
  {
    var before := ShowAll(run, vars);
    if segs == [] {
      RunIsCopied(k, vars[k], before, "");
    } else {
      var p := Mark(segs, done)[0];
      var rest, after := ShowAll(Mark(segs[1..], done), vars), ShowAll(Mark(segs[1..], done + {k}), vars);
      if p.Hole? {
        ReplaceMarked([], segs[1..], done, k, vars);
        assert "" + rest == rest && "" + after == after;
        HoleStep(k, vars[k], before, p.name, rest);
      } else {
        ReplaceMarked(run + [p], segs[1..], done, k, vars);
        assert Mark(segs, done + {k})[0] == p;
        JoinRun(run, p, vars, rest);
        JoinRun(run, p, vars, after);
      }
    }
  }

  lemma HoleStep(k: string, v: string, a: string, n: string, rest: string)
    requires BraceFree(k) && BraceFree(n) && !Contains(a, Token(k))
    ensures ReplaceAll(a + (Token(n) + rest), Token(k), v)
         == a + ((if n == k then v else Token(n)) + ReplaceAll(rest, Token(k), v))
  {
    RunIsCopied(k, v, a, Token(n) + rest);
    if n == k {
      assert (Token(k) + rest)[|Token(k)|..] == rest;
    } else {
      TokenIsCopied(k, v, n, rest);
    }
  }

  /** A token that stands for itself changes nothing. */
  lemma {:induction false} ReplaceBySelf(s: string, k: string)
    ensures ReplaceAll(s, Token(k), Token(k)) == s
  {
    if |s| >= |Token(k)| {
      if Token(k) <= s {
        ReplaceBySelf(s[|Token(k)|..], k);
      } else {
        ReplaceBySelf(s[1..], k);
      }
    }
  }

  lemma {:induction false} MarkBySelf(segs: seq<Segment>, done: set<string>, k: string, vars: map<string, string>)
    requires k in vars && vars[k] == Token(k)
    ensures ShowAll(Mark(segs, done + {k}), vars) == ShowAll(Mark(segs, done), vars)
  {
    if segs != [] {
      MarkBySelf(segs[1..], done, k, vars);
    }
  }

  /** Resolving one variable where all is clear replaces its tokens and nothing else. */
  lemma ClearStep(segs: seq<Segment>, vars: map<string, string>, names: set<string>, done: set<string>, k: string)
    requires ClearAmong(vars, names) && Plain(segs) && k in names && BraceFree(k) && done <= names - {k}
    ensures ReplaceAll(ShowAll(Mark(segs, done), vars), Token(k), vars[k]) == ShowAll(Mark(segs, done + {k}), vars)
  {
    if vars[k] == Token(k) {
      ReplaceBySelf(ShowAll(Mark(segs, done), vars), k);
      MarkBySelf(segs, done, k, vars);
    } else {
      FewerCollideLess(vars, k, done, names - {k});
      ReplaceMarked([], segs, done, k, vars);
      assert "" + ShowAll(Mark(segs, done), vars) == ShowAll(Mark(segs, done), vars);
      assert "" + ShowAll(Mark(segs, done + {k}), vars) == ShowAll(Mark(segs, done + {k}), vars);
    }
  }

  lemma {:induction false} ClearResolves(
    segs: seq<Segment>, vars: map<string, string>, names: set<string>, done: set<string>, order: seq<string>)
    requires ClearAmong(vars, names) && Plain(segs) && done <= names && forall k <- names :: BraceFree(k)
    requires (forall k <- order :: k in vars && k in names && k !in done) && Distinct(order)
    ensures Resolve(ShowAll(Mark(segs, done), vars), vars, order)
         == ShowAll(Mark(segs, done + set k | k in order), vars)
    decreases |order|
  {
    if order == [] {
      assert done + (set k | k in order) == done;
    } else {
      var k, rest := order[0], order[1..];
      DistinctTail(order);
      ClearStep(segs, vars, names, done, k);
      ClearResolves(segs, vars, names, done + {k}, rest);
      assert (done + {k}) + (set x | x in rest) == done + set x | x in order;
    }
  }

  lemma {:induction false} MarkNoneAndAll(segs: seq<Segment>, vars: map<string, string>)
    ensures ShowAll(Mark(segs, {}), vars) == Render(segs)
    ensures ShowAll(Mark(segs, vars.Keys), vars) == Render(Substitute(segs, vars))
  {
    if segs != [] {
      MarkNoneAndAll(segs[1..], vars);
      assert Substitute(segs, vars)[1..] == Substitute(segs[1..], vars);
    }
  }

  lemma {:induction false} ReplacedLength(s: string, k: string, v: string)
    ensures |v| >= |Token(k)| ==> |ReplaceAll(s, Token(k), v)| >= |s|
    ensures |v| <= |Token(k)| ==> |ReplaceAll(s, Token(k), v)| <= |s|
  {
    if |s| >= |Token(k)| {
      ReplacedLength(if Token(k) <= s then s[|Token(k)|..] else s[1..], k, v);
    }
  }

  /** A text that contains the token and does not change: the token stands for itself. */
  lemma {:induction false} UnchangedMeansSelf(s: string, k: string, v: string)
    requires Contains(s, Token(k)) && ReplaceAll(s, Token(k), v) == s
    ensures v == Token(k)
  {
    var t := Token(k);
    var i :| 0 <= i <= |s| && t <= s[i..];
    if t <= s {
      ReplacedLength(s[|t|..], k, v);
      assert (v + ReplaceAll(s[|t|..], t, v))[..|v|] == v;
      assert s[..|t|] == t;
    } else {
      assert i > 0 && s[1..][i - 1..] == s[i..];
      assert ([s[0]] + ReplaceAll(s[1..], t, v))[1..] == ReplaceAll(s[1..], t, v);
      UnchangedMeansSelf(s[1..], k, v);
    }
  }

  /** The body whose resolution puts the pieces side by side. */
  function BodyOf(ps: seq<Piece>): seq<Segment> {
    if ps == [] then []
    else
      [match ps[0]
       case Words(t) => Literal(t)
       case Hole(n) => Variable(n)
       case Value(n) => Variable(n)] + BodyOf(ps[1..])
  }

  lemma {:induction false} BodyShows(ps: seq<Piece>, vars: map<string, string>, names: set<string>)
    requires WithoutHole(ps, names) && forall k <- names :: BraceFree(k)
    ensures Plain(BodyOf(ps)) && forall k | Variable(k) in BodyOf(ps) :: k in names
    ensures ShowAll(Mark(BodyOf(ps), names), vars) == ShowAll(ps, vars)
    ensures ShowAll(Mark(BodyOf(ps), {}), vars) == Render(BodyOf(ps))
  {
    if ps != [] {
      BodyShows(ps[1..], vars, names);
    }
  }

  /** Resolving variables that the body does not mention does nothing. */
  lemma {:induction false} UnmentionedDoNothing(segs: seq<Segment>, vars: map<string, string>, order: seq<string>)
    requires Plain(segs) && forall k <- order :: k in vars && BraceFree(k) && Variable(k) !in segs
    ensures Resolve(Render(segs), vars, order) == Render(segs)
    decreases |order|
  {
    if order != [] {
      ReplaceIsSubstitute(segs, order[0], vars[order[0]], Open);
      SelfTokensStay(segs, map[order[0] := vars[order[0]]]);
      UnmentionedDoNothing(segs, vars, order[1..]);
    }
  }

  /** Any two map orders give the same text, for every body. */
  ghost predicate Agree(vars: map<string, string>) {
    forall segs, o, p | Plain(segs) && IterationOrder(o, vars) && IterationOrder(p, vars) ::
      Resolve(Render(segs), vars, o) == Resolve(Render(segs), vars, p)
  }

  /** The two orders that tell a collision: b after the names, and b before them. */
  lemma LastAndFirst(vars: map<string, string>, b: string, names: seq<string>, rest: seq<string>)
    requires b in vars && Distinct(names) && (forall k <- names :: k in vars && k != b)
    requires Distinct(rest) && forall k :: k in rest <==> k in vars && k != b && k !in names
    ensures IterationOrder(rest + (names + [b]), vars) && IterationOrder(rest + ([b] + names), vars)
  {
    DistinctConcat(names, [b]);
    DistinctConcat([b], names);
    DistinctConcat(rest, names + [b]);
    DistinctConcat(rest, [b] + names);
  }

  /** Resolving the names and then b. */
  lemma ResolveLast(body: string, vars: map<string, string>, names: seq<string>, b: string)
    requires b in vars && forall k <- names :: k in vars
    ensures forall k <- names + [b] :: k in vars
    ensures Resolve(body, vars, names + [b]) == ReplaceAll(Resolve(body, vars, names), Token(b), vars[b])
  {
    ResolveConcat(body, vars, names, [b]);
    assert [b][1..] == [];
  }

  /** A body that mentions only the names, resolved in the two orders: the second gives the text in
      which the names are replaced, the first resolves b in that text. */
  lemma TwoOrders(segs: seq<Segment>, vars: map<string, string>, b: string, names: seq<string>, rest: seq<string>)
    requires Plain(segs) && forall k <- vars :: BraceFree(k)
    requires IterationOrder(rest + (names + [b]), vars) && IterationOrder(rest + ([b] + names), vars)
    requires forall k | Variable(k) in segs :: k in names
    requires b in vars && b !in names
    requires (forall k <- names :: k in vars) && forall k <- rest :: k in vars && k !in names
    ensures var text := Resolve(Render(segs), vars, names);
            && Resolve(Render(segs), vars, rest + ([b] + names)) == text
            && Resolve(Render(segs), vars, rest + (names + [b])) == ReplaceAll(text, Token(b), vars[b])
  {
    UnmentionedDoNothing(segs, vars, rest);
    UnmentionedDoNothing(segs, vars, [b]);
    ResolveConcat(Render(segs), vars, rest, names + [b]);
    ResolveConcat(Render(segs), vars, rest, [b] + names);
    ResolveConcat(Render(segs), vars, [b], names);
    ResolveLast(Render(segs), vars, names, b);
  }

  lemma OrdersAgree(segs: seq<Segment>, vars: map<string, string>, o: seq<string>, p: seq<string>)
    requires Agree(vars) && Plain(segs) && IterationOrder(o, vars) && IterationOrder(p, vars)
    ensures Resolve(Render(segs), vars, o) == Resolve(Render(segs), vars, p)
  {
  }

  /** The text that the pieces make is what the names alone resolve to. */
  lemma PiecesResolve(ps: seq<Piece>, vars: map<string, string>, names: set<string>, order: seq<string>)
    requires WithoutHole(ps, names) && ClearAmong(vars, names) && forall k <- names :: BraceFree(k)
    requires Distinct(order) && forall k :: k in order <==> k in names
    ensures forall k <- order :: k in vars
    ensures Resolve(Render(BodyOf(ps)), vars, order) == ShowAll(ps, vars)
  {
    BodyShows(ps, vars, names);
    ClearResolves(BodyOf(ps), vars, names, {}, order);
    assert {} + (set k | k in order) == names;
  }

  /** A collision among variables that are otherwise clear tells the two orders apart. */
  lemma CollisionTells(vars: map<string, string>, b: string, names: set<string>, ps: seq<Piece>)
    requires Agree(vars) && forall k <- vars :: BraceFree(k)
    requires b in vars && names <= vars.Keys - {b} && ClearAmong(vars, names)
    requires WithoutHole(ps, names) && Contains(ShowAll(ps, vars), Token(b))
    ensures vars[b] == Token(b)
  {
    var order := Enumerate(names);
    var rest := Enumerate(vars.Keys - {b} - names);
    LastAndFirst(vars, b, order, rest);
    BodyShows(ps, vars, names);
    TwoOrders(BodyOf(ps), vars, b, order, rest);
    OrdersAgree(BodyOf(ps), vars, rest + (order + [b]), rest + ([b] + order));
    PiecesResolve(ps, vars, names, order);
    UnchangedMeansSelf(ShowAll(ps, vars), b, vars[b]);
  }

  /** If all orders agree then no token can appear in values of others: otherwise take the fewest
      values in which one does, and resolve the variable before and after them. */
  lemma {:induction false} AgreementClears(vars: map<string, string>, b: string, names: set<string>)
    requires Agree(vars) && (forall k <- vars :: BraceFree(k)) && b in vars && names <= vars.Keys - {b}
    ensures vars[b] == Token(b) || !Collides(vars, b, names)
    decreases |names|
  {
    forall k | k in names ensures vars[k] == Token(k) || !Collides(vars, k, names - {k}) {
      AgreementClears(vars, k, names - {k});
    }
    if ps :| WithoutHole(ps, names) && Contains(ShowAll(ps, vars), Token(b)) {
      CollisionTells(vars, b, names, ps);
    }
  }

  /** For arbitrary values, braces of any kind included: any two map orders agree on every body exactly
      when no token of a variable can appear in values of other variables put side by side with text,
      except one that stands for itself; and they then give the simultaneous substitution. */
  lemma ConfluentIffClear(vars: map<string, string>)
    requires forall k <- vars :: BraceFree(k)
    ensures Agree(vars) <==> Clear(vars)
    ensures OrderIndependent(vars) <==> Clear(vars)
  {
    if Clear(vars) {
      ClearIsOrderIndependent(vars);
    }
    if OrderIndependent(vars) {
      IndependentOrdersAgree(vars);
    }
    if Agree(vars) {
      forall b | b in vars ensures vars[b] == Token(b) || !Collides(vars, b, vars.Keys - {b}) {
        AgreementClears(vars, b, vars.Keys - {b});
      }
    }
  }

  lemma IndependentOrdersAgree(vars: map<string, string>)
    requires OrderIndependent(vars)
    ensures Agree(vars)
  {
  }

  lemma ClearIsOrderIndependent(vars: map<string, string>)
    requires Clear(vars) && forall k <- vars :: BraceFree(k)
    ensures OrderIndependent(vars)
  {
    forall segs, order | Plain(segs) && IterationOrder(order, vars)
      ensures Resolve(Render(segs), vars, order) == Render(Substitute(segs, vars))
    {
      ClearResolves(segs, vars, vars.Keys, {}, order);
      assert {} + (set k | k in order) == vars.Keys;
      MarkNoneAndAll(segs, vars);
    }
  }

  // ---------------------------------------------------------------- values that are templates

  /** Values given as segments, the way a body is. */
  type Values = map<string, seq<Segment>>

  function Text(vars: Values): map<string, string> {
    map k | k in vars :: Render(vars[k])
  }

  predicate PlainValues(vars: Values) {
    forall k <- vars :: BraceFree(k) && Plain(vars[k])
  }

  /** A value mentions another variable only if that variable stands for its own token. */
  predicate Inert(vars: Values) {
    forall a <- vars, b <- vars | a != b && Variable(b) in vars[a] :: Render(vars[b]) == Token(b)
  }

  lemma {:induction false} MentionIsContained(segs: seq<Segment>, b: string)
    requires Variable(b) in segs
    ensures Contains(Render(segs), Token(b))
  {
    var head, rest := Show(segs[0]), Render(segs[1..]);
    if segs[0] == Variable(b) {
      assert Token(b) <= Render(segs)[0..];
    } else {
      MentionIsContained(segs[1..], b);
      var i :| 0 <= i <= |rest| && Token(b) <= rest[i..];
      assert (head + rest)[|head| + i..] == rest[i..];
    }
  }

  lemma UnmentionedIsNotContained(segs: seq<Segment>, b: string)
    requires Plain(segs) && BraceFree(b) && Variable(b) !in segs
    ensures !Contains(Render(segs), Token(b))
  {
    ReplaceIsSubstitute(segs, b, "", Open);
    SelfTokensStay(segs, map[b := ""]);
    if Contains(Render(segs), Token(b)) {
      UnchangedMeansSelf(Render(segs), b, "");
    }
  }

  /** Pieces as segments. */
  function SegmentsOf(ps: seq<Piece>, vars: Values): seq<Segment> {
    if ps == [] then []
    else
      (match ps[0]
       case Words(t) => [Literal(t)]
       case Hole(n) => [Variable(n)]
       case Value(n) => if n in vars then vars[n] else []) + SegmentsOf(ps[1..], vars)
  }

  lemma {:induction false} PiecesAreSegments(ps: seq<Piece>, vars: Values, names: set<string>)
    requires PlainValues(vars) && WithoutHole(ps, names) && names <= vars.Keys
    ensures Plain(SegmentsOf(ps, vars)) && Render(SegmentsOf(ps, vars)) == ShowAll(ps, Text(vars))
    ensures forall b | Variable(b) in SegmentsOf(ps, vars) :: exists a <- names :: Variable(b) in vars[a]
  {
    if ps != [] {
      PiecesAreSegments(ps[1..], vars, names);
      var head := if ps[0].Words? then [Literal(ps[0].text)] else vars[ps[0].name];
      assert SegmentsOf(ps, vars) == head + SegmentsOf(ps[1..], vars);
      RenderConcat(head, SegmentsOf(ps[1..], vars));
      assert ps[0].Words? ==> Render(head) == ps[0].text + Render(head[1..]) == ps[0].text;
    }
  }

  /** Among such values a token can appear only where a value mentions the variable. */
  lemma CollidesIffMentioned(vars: Values, b: string, names: set<string>)
    requires PlainValues(vars) && names <= vars.Keys && BraceFree(b)
    ensures Collides(Text(vars), b, names) <==> exists a <- names :: Variable(b) in vars[a]
  {
    if ps :| WithoutHole(ps, names) && Contains(ShowAll(ps, Text(vars)), Token(b)) {
      PiecesAreSegments(ps, vars, names);
      if Variable(b) !in SegmentsOf(ps, vars) {
        UnmentionedIsNotContained(SegmentsOf(ps, vars), b);
      }
    }
    if a :| a in names && Variable(b) in vars[a] {
      MentionIsContained(vars[a], b);
      var ps := [Value(a)];
      assert ShowAll(ps, Text(vars)) == Render(vars[a]) + "" == Render(vars[a]);
      assert WithoutHole(ps, names);
    }
  }

  /** For values made of brace-free text and tokens: any two map orders agree on every body, and give
      the simultaneous substitution, exactly when the values are inert. */
  lemma ConfluentIff(vars: Values)
    requires PlainValues(vars)
    ensures Agree(Text(vars)) <==> Inert(vars)
    ensures OrderIndependent(Text(vars)) <==> Inert(vars)
  {
    var text := Text(vars);
    ConfluentIffClear(text);
    forall b | b in vars
      ensures Collides(text, b, text.Keys - {b}) <==> exists a <- text.Keys - {b} :: Variable(b) in vars[a]
    {
      CollidesIffMentioned(vars, b, text.Keys - {b});
    }
    assert text.Keys == vars.Keys;
  }

  // ---------------------------------------------------------------- where confluence stops

  /** A value that contains both braces can make the result depend on the order. */
  lemma ValuesWithBothBraces()
    ensures var vars := map["a" := "{{b}}", "b" := "x"];
            && IterationOrder(["a", "b"], vars) && IterationOrder(["b", "a"], vars)
            && Resolve("{{a}}", vars, ["a", "b"]) == "x"
            && Resolve("{{a}}", vars, ["b", "a"]) == "{{b}}"
  {
    OwnTokenReplaced("a", "{{b}}");
    OwnTokenReplaced("b", "x");
    TokenIsCopied("b", "x", "a", "");
    ShortCopies("", "b", "x");
    assert Token("a") == "{{a}}" && Token("b") == "{{b}}" && Token("a") + "" == "{{a}}";
    assert ["a", "b"][1..] == ["b"] && ["b", "a"][1..] == ["a"] && ["a"][1..] == [] && ["b"][1..] == [];
  }

  lemma OwnTokenReplaced(k: string, v: string)
    ensures ReplaceAll(Token(k), Token(k), v) == v
  {
    assert Token(k)[|Token(k)|..] == "";
    ShortCopies("", k, v);
    assert v + "" == v;
  }

  /** So can a key that contains braces. */
  lemma KeysWithBraces()
    ensures var vars := map["a" := "x", "a}}{{b" := "y"];
            && IterationOrder(["a", "a}}{{b"], vars) && IterationOrder(["a}}{{b", "a"], vars)
            && Resolve("{{a}}{{b}}", vars, ["a", "a}}{{b"]) == "x{{b}}"
            && Resolve("{{a}}{{b}}", vars, ["a}}{{b", "a"]) == "y"
  {
    var key := "a}}{{b";
    PlainFirst();
    assert Token(key) == "{{a}}{{b}}" && |"x{{b}}"| < |Token(key)|;
    ShortCopies("x{{b}}", key, "y");
    assert ReplaceAll(Token(key), Token(key), "y") == "y" + ReplaceAll("", Token(key), "y");
    assert ReplaceAll("y", Token("a"), "x") == "y";
    assert ["a", key][1..] == [key] && [key, "a"][1..] == ["a"];
  }

  lemma PlainFirst()
    ensures ReplaceAll("{{a}}{{b}}", Token("a"), "x") == "x{{b}}"
  {
    assert Token("a") == "{{a}}" && Token("b") == "{{b}}";
    TokenIsCopied("a", "x", "b", "");
    assert Token("b") + "" == "{{b}}";
    ShortCopies("", "a", "x");
    assert "{{a}}{{b}}"[5..] == "{{b}}";
  }
}
