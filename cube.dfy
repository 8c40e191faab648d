/** The flat-array cube of cube.js: 54 facelets, three basic moves given as
    permutation tables, every other move a string of other moves, and the
    `apply` / `applyMove` pair that parses and executes move strings.

    Facelet layout (cube.js:14-27): facelets 0-8 are the U face, 9-17 F, 18-26 R,
    27-35 B, 36-44 L, 45-53 D, so the solved cube holds colour i / 9 at facelet i. */
module CubeModel {
  import opened Text
  import opened CubeTables

  datatype Option<T> = None | Some(value: T)

  /** A value of `Cube.moves`: a permutation table or the string of moves it
      stands for. */
  datatype MoveDef = Basic(p: seq<int>) | Composite(def: string)

  /** The outcome of applying moves: the state reached, and whether every token
      was known. When `ok` is false the source throws a TypeError; `state` is
      then what `this.state` holds at that point, since earlier tokens have
      already been applied. */
  datatype Run = Run(state: seq<int>, ok: bool)

  /** The state `new Cube()` creates. */
  function Solved(): seq<int>
  {
    seq(54, i => i / 9)
  }

  /** 54 facelets with the colours of the solved cube: nine of each. Every
      state the table moves reach from the solved cube has them. */
  ghost predicate SolvedColours(s: seq<int>)
  {
    |s| == 54 && multiset(s) == multiset(Solved())
  }

  /** A table that the move loop of `applyMove` can run over a 54-facelet state. */
  predicate IsTable(p: seq<int>)
  {
    |p| == 54 && forall i :: 0 <= i < 54 ==> 0 <= p[i] < 54
  }

  /** A permutation of 0..53. */
  ghost predicate IsPermutation(p: seq<int>)
  {
    && IsTable(p)
    && (forall i, j :: 0 <= i < j < 54 ==> p[i] != p[j])
    && (forall v :: 0 <= v < 54 ==> v in p)
  }

  /** `Cube.moves[name]` (cube.js:48-88) for the keys the table itself defines;
      None for any other name. (The lookup as written also finds the members
      of Object.prototype; `MoveAppliedAsWritten` models that.) */
  function Lookup(name: string): Option<MoveDef>
  {
    match name
    case "U" => Some(Basic(seq(54, i requires 0 <= i < 54 => UEntry(i))))
    case "x" => Some(Basic(seq(54, i requires 0 <= i < 54 => XEntry(i))))
    case "y" => Some(Basic(seq(54, i requires 0 <= i < 54 => YEntry(i))))
    case "F" => Some(Composite("x U x'"))
    case "R" => Some(Composite("y F y'"))
    case "L" => Some(Composite("y' F y"))
    case "D" => Some(Composite("x F x'"))
    case "B" => Some(Composite("y R y'"))
    case "z" => Some(Composite("x y x'"))
    case "f" => Some(Composite("B z"))
    case "r" => Some(Composite("L x"))
    case "u" => Some(Composite("D y"))
    case "l" => Some(Composite("R x'"))
    case "d" => Some(Composite("U y'"))
    case "b" => Some(Composite("F z'"))
    case "M" => Some(Composite("l L'"))
    case "E" => Some(Composite("d D'"))
    case "S" => Some(Composite("f F'"))
    case _ => None
  }

  /** The value `undefined` once a facelet holds it; every colour is in 0..5. */
  const Undefined: int := -1

  /** The members every object inherits from Object.prototype, which the
      lookup `Cube.moves[raw]` also finds (see `MoveAppliedAsWritten`). Each is
      given by the number of rounds the loop `i < move.length` runs over it:
      a function's `length`, its number of declared parameters, and 0 for
      `__proto__`, which is Object.prototype itself and has no `length`. */
  function InheritedLength(name: string): Option<nat>
  {
    match name
    case "constructor" => Some(1)
    case "hasOwnProperty" => Some(1)
    case "isPrototypeOf" => Some(1)
    case "propertyIsEnumerable" => Some(1)
    case "__lookupGetter__" => Some(1)
    case "__lookupSetter__" => Some(1)
    case "__defineGetter__" => Some(2)
    case "__defineSetter__" => Some(2)
    case "toString" => Some(0)
    case "valueOf" => Some(0)
    case "toLocaleString" => Some(0)
    case "__proto__" => Some(0)
    case _ => None
  }

  /** How deep the expansion of a move name can go: a basic move (or an unknown
      name) is 0, a composite one more than the deepest name in its definition.
      Every key of `Cube.moves` is a single character. */
  ghost function Rank(name: string): nat
  {
    if |name| != 1 then 0
    else
      match name[0]
      case 'F' => 1  case 'z' => 1  case 'd' => 1
      case 'R' => 2  case 'L' => 2  case 'D' => 2  case 'b' => 2
      case 'B' => 3  case 'r' => 3  case 'u' => 3  case 'l' => 3  case 'E' => 3
      case 'f' => 4  case 'M' => 4
      case 'S' => 5
      case _ => 0
  }

  /** The token ends in `'` (apply the inverse). */
  predicate IsPrime(tok: string)
  {
    |tok| > 0 && tok[|tok| - 1] == '\''
  }

  /** The token ends in `2` (apply twice). */
  predicate IsDouble(tok: string)
  {
    |tok| > 0 && tok[|tok| - 1] == '2'
  }

  /** The move name a token refers to: the token without its `'` or `2` suffix. */
  function Base(tok: string): string
  {
    if IsPrime(tok) || IsDouble(tok) then tok[..|tok| - 1] else tok
  }

  /** The deepest move name among the tokens. */
  ghost function MaxRank(toks: seq<string>): nat
  {
    if toks == [] then 0
    else
      var a := Rank(Base(toks[0]));
      var b := MaxRank(toks[1..]);
      if a < b then b else a
  }

  /** The forward move of cube.js:123: `new[i] = old[p[i]]`. */
  function Permute(s: seq<int>, p: seq<int>): seq<int>
    requires |s| == 54 && IsTable(p)
  {
    seq(54, i requires 0 <= i < 54 => s[p[i]])
  }

  /** The array `newState` after the first k rounds of the inverse loop of
      cube.js:119-125, which starts from a copy of `s` and sets `new[p[i]] = s[i]`. */
  function Scatter(s: seq<int>, p: seq<int>, k: nat): (r: seq<int>)
    requires |s| == 54 && IsTable(p) && k <= 54
    ensures |r| == 54
  {
    if k == 0 then s else Scatter(s, p, k - 1)[p[k - 1] := s[k - 1]]
  }

  /** The inverse move of cube.js:121. */
  function Unpermute(s: seq<int>, p: seq<int>): seq<int>
    requires |s| == 54 && IsTable(p)
  {
    Scatter(s, p, 54)
  }

  // ---------------------------------------------------------------------
  // The move table

  /** `Cube.moves["U"]` is a permutation of 0..53. */
  lemma UIsPermutation()
    ensures IsPermutation(Lookup("U").value.p)
  {
    var p := Lookup("U").value.p;
    forall i | 0 <= i < 54 ensures 0 <= p[i] < 54 && UWitness(p[i]) == i {}
    forall v | 0 <= v < 54 ensures v in p { assert p[UWitness(v)] == v; }
  }

  /** `Cube.moves["x"]` is a permutation of 0..53. */
  lemma XIsPermutation()
    ensures IsPermutation(Lookup("x").value.p)
  {
    var p := Lookup("x").value.p;
    forall i | 0 <= i < 54 ensures 0 <= p[i] < 54 && XWitness(p[i]) == i {}
    forall v | 0 <= v < 54 ensures v in p { assert p[XWitness(v)] == v; }
  }

  /** `Cube.moves["y"]` is a permutation of 0..53. */
  lemma YIsPermutation()
    ensures IsPermutation(Lookup("y").value.p)
  {
    var p := Lookup("y").value.p;
    forall i | 0 <= i < 54 ensures 0 <= p[i] < 54 && YWitness(p[i]) == i {}
    forall v | 0 <= v < 54 ensures v in p { assert p[YWitness(v)] == v; }
  }

  /** Every table in `Cube.moves` is a permutation of 0..53. */
  lemma BasicMovesArePermutations(name: string)
    requires Lookup(name).Some? && Lookup(name).value.Basic?
    ensures IsPermutation(Lookup(name).value.p)
  {
    if name == "U" {
      UIsPermutation();
    } else if name == "x" {
      XIsPermutation();
    } else {
      YIsPermutation();
    }
  }

  /** Tokens that all name moves of rank below n have a maximum rank below n. */
  lemma {:induction false} MaxRankBelow(toks: seq<string>, n: nat)
    requires n > 0
    requires forall k :: 0 <= k < |toks| ==> Rank(Base(toks[k])) < n
    ensures MaxRank(toks) < n
    decreases |toks|
  {
    if toks != [] {
      MaxRankBelow(toks[1..], n);
    }
  }

  /** A definition whose tokens `toks` all name moves of rank below n. */
  lemma DefinitionBelow(def: string, toks: seq<string>, n: nat)
    requires n > 0 && |toks| >= 1
    requires forall k :: 0 <= k < |toks| ==> ' ' !in toks[k] && Rank(Base(toks[k])) < n
    requires Join(toks, ' ') == def
    ensures MaxRank(Split(def, ' ')) < n
  {
    SplitJoin(toks, ' ');
    MaxRankBelow(toks, n);
  }

  /** Acyclicity of the definitions of F, z, d. */
  lemma RankOneAcyclic(name: string)
    requires name == "F" || name == "z" || name == "d"
    ensures Lookup(name).Some? && Lookup(name).value.Composite?
    ensures MaxRank(Split(Lookup(name).value.def, ' ')) < Rank(name)
  {
    if name == "F" {
      DefinitionBelow(Lookup(name).value.def, ["x", "U", "x'"], Rank(name));
    } else if name == "z" {
      DefinitionBelow(Lookup(name).value.def, ["x", "y", "x'"], Rank(name));
    } else {
      DefinitionBelow(Lookup(name).value.def, ["U", "y'"], Rank(name));
    }
  }

  /** Acyclicity of the definitions of R, L, D. */
  lemma RankTwoAcyclic(name: string)
    requires name == "R" || name == "L" || name == "D"
    ensures Lookup(name).Some? && Lookup(name).value.Composite?
    ensures MaxRank(Split(Lookup(name).value.def, ' ')) < Rank(name)
  {
    if name == "R" {
      DefinitionBelow(Lookup(name).value.def, ["y", "F", "y'"], Rank(name));
    } else if name == "L" {
      DefinitionBelow(Lookup(name).value.def, ["y'", "F", "y"], Rank(name));
    } else {
      DefinitionBelow(Lookup(name).value.def, ["x", "F", "x'"], Rank(name));
    }
  }

  /** Acyclicity of the definitions of b, B, E. */
  lemma BackAndEquatorAcyclic(name: string)
    requires name == "b" || name == "B" || name == "E"
    ensures Lookup(name).Some? && Lookup(name).value.Composite?
    ensures MaxRank(Split(Lookup(name).value.def, ' ')) < Rank(name)
  {
    if name == "b" {
      DefinitionBelow(Lookup(name).value.def, ["F", "z'"], Rank(name));
    } else if name == "B" {
      DefinitionBelow(Lookup(name).value.def, ["y", "R", "y'"], Rank(name));
    } else {
      DefinitionBelow(Lookup(name).value.def, ["d", "D'"], Rank(name));
    }
  }

  /** Acyclicity of the definitions of r, u, l. */
  lemma WideMovesAcyclic(name: string)
    requires name == "r" || name == "u" || name == "l"
    ensures Lookup(name).Some? && Lookup(name).value.Composite?
    ensures MaxRank(Split(Lookup(name).value.def, ' ')) < Rank(name)
  {
    if name == "r" {
      DefinitionBelow(Lookup(name).value.def, ["L", "x"], Rank(name));
    } else if name == "u" {
      DefinitionBelow(Lookup(name).value.def, ["D", "y"], Rank(name));
    } else {
      DefinitionBelow(Lookup(name).value.def, ["R", "x'"], Rank(name));
    }
  }

  /** Acyclicity of the definitions of f, M, S. */
  lemma RankFourAndFiveAcyclic(name: string)
    requires name == "f" || name == "M" || name == "S"
    ensures Lookup(name).Some? && Lookup(name).value.Composite?
    ensures MaxRank(Split(Lookup(name).value.def, ' ')) < Rank(name)
  {
    if name == "f" {
      DefinitionBelow(Lookup(name).value.def, ["B", "z"], Rank(name));
    } else if name == "M" {
      DefinitionBelow(Lookup(name).value.def, ["l", "L'"], Rank(name));
    } else {
      DefinitionBelow(Lookup(name).value.def, ["f", "F'"], Rank(name));
    }
  }

  /** The composite definitions are acyclic: every name a definition uses is of
      lower rank than the name it defines, so expanding a move terminates. */
  lemma DefinitionsAcyclic(name: string)
    requires Lookup(name).Some? && Lookup(name).value.Composite?
    ensures MaxRank(Split(Lookup(name).value.def, ' ')) < Rank(name)
  {
    if name == "F" || name == "z" || name == "d" {
      RankOneAcyclic(name);
    } else if name == "R" || name == "L" || name == "D" {
      RankTwoAcyclic(name);
    } else if name == "b" || name == "B" || name == "E" {
      BackAndEquatorAcyclic(name);
    } else if name == "r" || name == "u" || name == "l" {
      WideMovesAcyclic(name);
    } else {
      RankFourAndFiveAcyclic(name);
    }
  }

  // ---------------------------------------------------------------------
  // Permutations keep the colours and undo each other

  /** The facelets holding colour c. */
  ghost function Positions(s: seq<int>, c: int): set<int>
  {
    set i | 0 <= i < |s| && s[i] == c
  }

  lemma {:induction false} CountIsPositions(s: seq<int>, c: int)
    ensures multiset(s)[c] == |Positions(s, c)|
    decreases |s|
  {
    if s != [] {
      var t := s[..|s| - 1];
      CountIsPositions(t, c);
      assert s == t + [s[|s| - 1]];
      if s[|s| - 1] == c {
        assert Positions(s, c) == Positions(t, c) + {|s| - 1};
      } else {
        assert Positions(s, c) == Positions(t, c);
      }
    }
  }

  /** An injective table keeps the size of a set of indices below n. */
  lemma {:induction false} InjectiveImage(a: set<int>, p: seq<int>, n: nat)
    requires n <= |p|
    requires forall i :: i in a ==> 0 <= i < n
    requires forall i, j :: 0 <= i < j < |p| ==> p[i] != p[j]
    ensures |set i | i in a :: p[i]| == |a|
    decreases n
  {
    if n == 0 {
      assert a == {};
    } else {
      var b := set i | i in a && i < n - 1;
      InjectiveImage(b, p, n - 1);
      if n - 1 in a {
        assert a == b + {n - 1};
        assert (set i | i in a :: p[i]) == (set i | i in b :: p[i]) + {p[n - 1]};
      } else {
        assert a == b;
      }
    }
  }

  /** A forward move keeps the number of facelets of every colour. */
  lemma PermuteMultiset(s: seq<int>, p: seq<int>)
    requires |s| == 54 && IsPermutation(p)
    ensures multiset(Permute(s, p)) == multiset(s)
  {
    var t := Permute(s, p);
    forall c ensures multiset(t)[c] == multiset(s)[c] {
      CountIsPositions(t, c);
      CountIsPositions(s, c);
      var a := Positions(t, c);
      InjectiveImage(a, p, 54);
      forall j | j in Positions(s, c) ensures j in (set i | i in a :: p[i]) {
        assert j in p;
        var i :| 0 <= i < 54 && p[i] == j;
        assert i in a;
      }
      assert (set i | i in a :: p[i]) == Positions(s, c);
    }
  }

  /** After k rounds of the inverse loop, facelet p[i] holds s[i] for every i < k. */
  lemma {:induction false} ScatterPlaces(s: seq<int>, p: seq<int>, k: nat)
    requires |s| == 54 && IsPermutation(p) && k <= 54
    ensures forall i :: 0 <= i < k ==> Scatter(s, p, k)[p[i]] == s[i]
    decreases k
  {
    if k > 0 {
      ScatterPlaces(s, p, k - 1);
      forall i | 0 <= i < k ensures Scatter(s, p, k)[p[i]] == s[i] {
        if i < k - 1 {
          assert p[i] != p[k - 1];
        }
      }
    }
  }

  /** The forward move undoes the inverse move. */
  lemma UnpermuteThenPermute(s: seq<int>, p: seq<int>)
    requires |s| == 54 && IsPermutation(p)
    ensures Permute(Unpermute(s, p), p) == s
  {
    ScatterPlaces(s, p, 54);
  }

  /** The inverse move undoes the forward move. */
  lemma PermuteThenUnpermute(s: seq<int>, p: seq<int>)
    requires |s| == 54 && IsPermutation(p)
    ensures Unpermute(Permute(s, p), p) == s
  {
    var t := Permute(s, p);
    ScatterPlaces(t, p, 54);
    forall j | 0 <= j < 54 ensures Unpermute(t, p)[j] == s[j] {
      assert j in p;
      var i :| 0 <= i < 54 && p[i] == j;
    }
  }

  /** An inverse move keeps the number of facelets of every colour. */
  lemma UnpermuteMultiset(s: seq<int>, p: seq<int>)
    requires |s| == 54 && IsPermutation(p)
    ensures multiset(Unpermute(s, p)) == multiset(s)
  {
    UnpermuteThenPermute(s, p);
    PermuteMultiset(Unpermute(s, p), p);
  }

  // ---------------------------------------------------------------------
  // apply and applyMove as functions of the state

  /** Every token's move name is no deeper than the deepest. */
  lemma {:induction false} MaxRankBound(toks: seq<string>, k: nat)
    requires k < |toks|
    ensures Rank(Base(toks[k])) <= MaxRank(toks)
    decreases k
  {
    if k > 0 {
      MaxRankBound(toks[1..], k - 1);
    }
  }

  /** `cube.apply(moves)` (cube.js:90-108): the space-separated tokens, left to right. */
  function Applied(s: seq<int>, moves: string): (r: Run)
    requires |s| == 54
    ensures |r.state| == 54 && multiset(r.state) == multiset(s)
    decreases MaxRank(Split(moves, ' ')), 2, 0
  {
    TokensApplied(s, Split(moves, ' '))
  }

  /** The loop of cube.js:93-107: stop at the first token that throws. */
  function TokensApplied(s: seq<int>, toks: seq<string>): (r: Run)
    requires |s| == 54
    ensures |r.state| == 54 && multiset(r.state) == multiset(s)
    decreases MaxRank(toks), 1, |toks|
  {
    if toks == [] then Run(s, true)
    else
      var r := TokenApplied(s, toks[0]);
      if !r.ok then r else TokensApplied(r.state, toks[1..])
  }

  /** One token (cube.js:96-106): `X'` applies X with the inverse flag, `X2`
      applies X twice, any other token is applied as it is. */
  function TokenApplied(s: seq<int>, tok: string): (r: Run)
    requires |s| == 54
    ensures |r.state| == 54 && multiset(r.state) == multiset(s)
    decreases Rank(Base(tok)), 0, 1
  {
    if IsPrime(tok) then MoveApplied(s, Base(tok), true)
    else if IsDouble(tok) then
      var r := MoveApplied(s, Base(tok), false);
      if !r.ok then r else MoveApplied(r.state, Base(tok), false)
    else MoveApplied(s, tok, false)
  }

  /** `cube.applyMove(raw, isInverse)` (cube.js:110-127). An unknown name throws
      on `move.length` and leaves the state as it was; a composite name applies
      its definition and drops `isInverse`. */
  function MoveApplied(s: seq<int>, raw: string, isInverse: bool): (r: Run)
    requires |s| == 54
    ensures |r.state| == 54 && multiset(r.state) == multiset(s)
    decreases Rank(raw), 0, 0
  {
    match Lookup(raw)
    case None => Run(s, false)
    case Some(Composite(def)) =>
      DefinitionsAcyclic(raw);
      Applied(s, def)
    case Some(Basic(p)) =>
      BasicMovesArePermutations(raw);
      if isInverse then
        UnpermuteMultiset(s, p);
        Run(Unpermute(s, p), true)
      else
        PermuteMultiset(s, p);
        Run(Permute(s, p), true)
  }

  /** What `applyMove` leaves as written: the run, and the value of the state
      array's own property named "undefined". `named` is `Undefined` when the
      array has no such property, which reads the same. */
  datatype Stored = Stored(run: Run, named: int)

  /** The forward loop of cube.js:119-125 over a table whose n entries are all
      undefined: `newState[i] = this.state[undefined]` writes the value `v` of
      the property named "undefined" into each of the first n facelets. */
  function Blanked(s: seq<int>, n: nat, v: int): (r: seq<int>)
    requires |s| == 54
    ensures |r| == 54
    ensures forall i :: 0 <= i < 54 ==> r[i] == if i < n then v else s[i]
  {
    seq(54, i requires 0 <= i < 54 => if i < n then v else s[i])
  }

  /** `applyMove` as written (cube.js:110-127), where `Cube.moves[raw]` also
      finds the members of Object.prototype, and `named` is the property
      "undefined" of the current state array. Such a member is not a string,
      so it goes through the array loop, and each of its entries `move[i]` is
      undefined. Turned forward, it copies `named` into the first `length`
      facelets. Turned inverse, `newState[undefined] = this.state[i]` leaves
      every facelet alone and stores the facelet of the last round under
      "undefined". Every other run starts from `slice()`, which copies no
      named property, so the new array has none; a name found nowhere throws
      at `move.length` before `this.state` is replaced. No composite
      definition names an inherited member, so every key of the table runs
      as in `MoveApplied`. */
  function MoveAppliedAsWritten(s: seq<int>, named: int, raw: string, isInverse: bool): (r: Stored)
    requires |s| == 54
    ensures |r.run.state| == 54
    ensures InheritedLength(raw).None? && Lookup(raw).None? ==> r == Stored(Run(s, false), named)
    ensures Lookup(raw).Some? ==> r.run == MoveApplied(s, raw, isInverse)
  {
    if Lookup(raw).Some? then Stored(MoveApplied(s, raw, isInverse), Undefined)
    else
      match InheritedLength(raw)
      case None => Stored(Run(s, false), named)
      case Some(n) =>
        if isInverse then Stored(Run(s, true), if n == 0 then Undefined else s[n - 1])
        else Stored(Run(Blanked(s, n, named), true), Undefined)
  }

  /** As written, a member of Object.prototype whose loop runs no round
      (`toString`, `valueOf`, `toLocaleString`, `__proto__`) is a move that
      leaves the cube as it was, either way round. `MoveApplied` throws on it,
      as on every other name that is not a move. */
  lemma InheritedNoOp(s: seq<int>, named: int, name: string)
    requires |s| == 54 && InheritedLength(name) == Some(0)
    ensures MoveAppliedAsWritten(s, named, name, false) == Stored(Run(s, true), Undefined)
    ensures MoveAppliedAsWritten(s, named, name, true) == Stored(Run(s, true), Undefined)
    ensures MoveApplied(s, name, false) == Run(s, false)
    ensures MoveApplied(s, name, true) == Run(s, false)
  {
    assert Lookup(name).None?;
    assert Blanked(s, 0, named) == s;
  }

  /** As written, a member of Object.prototype with a non-zero `length`
      (`constructor`, `hasOwnProperty`, `__defineGetter__`, ...) turned forward
      does not throw. On a state array whose property "undefined" holds no
      colour (a new cube, or any state whose last move was not an inherited
      inverse) it writes that value over facelet 0, so a cube with nine
      facelets of each colour no longer has them. `MoveApplied` throws on it
      and leaves the cube as it was. */
  lemma InheritedBlanks(s: seq<int>, named: int, name: string)
    requires SolvedColours(s) && !(0 <= named < 6)
    requires InheritedLength(name).Some? && InheritedLength(name).value > 0
    ensures MoveAppliedAsWritten(s, named, name, false).run.ok
    ensures MoveAppliedAsWritten(s, named, name, false).run.state[0] == named
    ensures multiset(MoveAppliedAsWritten(s, named, name, false).run.state) != multiset(s)
    ensures MoveApplied(s, name, false) == Run(s, false)
  {
    assert Lookup(name).None?;
    var t := MoveAppliedAsWritten(s, named, name, false).run.state;
    assert t == Blanked(s, InheritedLength(name).value, named);
    NineOfEachColour(s);
    assert named in multiset(t) by {
      assert t[0] in t;
    }
    assert named !in multiset(s);
  }

  /** As written, an inherited member of `length` 1 turned inverse and then
      forward (`constructor' constructor`, or `hasOwnProperty'` then
      `constructor`) stores facelet 0 under "undefined" and copies it back,
      so the pair leaves the cube as it was and the property cleared. */
  lemma InheritedPairRestores(s: seq<int>, named: int, first: string, second: string)
    requires |s| == 54
    requires InheritedLength(first) == Some(1) && InheritedLength(second) == Some(1)
    ensures MoveAppliedAsWritten(s, named, first, true) == Stored(Run(s, true), s[0])
    ensures MoveAppliedAsWritten(s, s[0], second, false) == Stored(Run(s, true), Undefined)
  {
    assert Lookup(first).None? && Lookup(second).None?;
    assert Blanked(s, 1, s[0]) == s;
  }

  // ---------------------------------------------------------------------
  // What apply promises

  /** Tokens run in order: the second list starts where the first one stopped. */
  lemma {:induction false} TokensAppliedConcat(s: seq<int>, t1: seq<string>, t2: seq<string>)
    requires |s| == 54
    ensures TokensApplied(s, t1 + t2) ==
      var r := TokensApplied(s, t1);
      if !r.ok then r else TokensApplied(r.state, t2)
    decreases |t1|
  {
    if t1 == [] {
      assert t1 + t2 == t2;
    } else {
      assert (t1 + t2)[0] == t1[0];
      assert (t1 + t2)[1..] == t1[1..] + t2;
      var r := TokenApplied(s, t1[0]);
      if r.ok {
        TokensAppliedConcat(r.state, t1[1..], t2);
      }
    }
  }

  /** The token at i runs first, then the tokens after it, unless it throws. */
  lemma TokensStep(s: seq<int>, toks: seq<string>, i: int)
    requires |s| == 54 && 0 <= i < |toks|
    ensures TokensApplied(s, toks[i..]) ==
      var r := TokenApplied(s, toks[i]);
      if !r.ok then r else TokensApplied(r.state, toks[i + 1..])
  {
    assert toks[i..][1..] == toks[i + 1..];
  }

  /** `apply(a + " " + b)` applies a, then b from the state a reached, unless a
      threw. */
  lemma AppliedConcat(s: seq<int>, a: string, b: string)
    requires |s| == 54
    ensures Applied(s, a + " " + b) ==
      var r := Applied(s, a);
      if !r.ok then r else Applied(r.state, b)
  {
    SplitAppend(a, b, ' ');
    TokensAppliedConcat(s, Split(a, ' '), Split(b, ' '));
  }

  /** A single token without a space is applied on its own. */
  lemma AppliedSingle(s: seq<int>, tok: string)
    requires |s| == 54 && ' ' !in tok
    ensures Applied(s, tok) == TokenApplied(s, tok)
  {
    SplitSingle(tok, ' ');
    assert [tok][1..] == [];
  }

  /** A token whose move name is not a key of `Cube.moves` (the empty token
      included) throws and leaves the state as it was. */
  lemma UnknownTokenFails(s: seq<int>, tok: string)
    requires |s| == 54 && ' ' !in tok
    requires Lookup(Base(tok)).None?
    ensures Applied(s, tok) == Run(s, false)
  {
    AppliedSingle(s, tok);
  }

  /** `X2` has the effect of `X X`. */
  lemma DoubleIsTwice(s: seq<int>, tok: string)
    requires |s| == 54 && ' ' !in tok
    requires !IsPrime(tok) && !IsDouble(tok)
    ensures Applied(s, tok + "2") == Applied(s, tok + " " + tok)
  {
    var t2 := tok + "2";
    assert ' ' !in t2;
    assert IsDouble(t2) && !IsPrime(t2) && Base(t2) == tok;
    AppliedSingle(s, t2);
    AppliedConcat(s, tok, tok);
    AppliedSingle(s, tok);
    var r := Applied(s, tok);
    if r.ok {
      AppliedSingle(r.state, tok);
    }
  }

  /** The quirk of cube.js:113-115: a composite move drops the inverse flag, so
      `X'` has the same effect as `X`. */
  lemma CompositeIgnoresInverse(s: seq<int>, name: string)
    requires |s| == 54
    requires Lookup(name).Some? && Lookup(name).value.Composite?
    ensures Applied(s, name + "'") == Applied(s, name)
  {
    assert |name| == 1;
    var t := name + "'";
    assert ' ' !in t && IsPrime(t) && Base(t) == name;
    assert ' ' !in name && !IsPrime(name) && !IsDouble(name);
    AppliedSingle(s, t);
    AppliedSingle(s, name);
  }

  /** For a table move X, `X X'` and `X' X` both restore the state exactly. */
  lemma BasicRoundTrip(s: seq<int>, name: string)
    requires |s| == 54
    requires Lookup(name).Some? && Lookup(name).value.Basic?
    ensures Applied(s, name + " " + name + "'") == Run(s, true)
    ensures Applied(s, name + "' " + name) == Run(s, true)
  {
    var p := Lookup(name).value.p;
    BasicMovesArePermutations(name);
    assert |name| == 1;
    var t := name + "'";
    assert ' ' !in t && IsPrime(t) && Base(t) == name;
    assert ' ' !in name && !IsPrime(name) && !IsDouble(name);
    assert name + " " + name + "'" == name + " " + t;
    assert name + "' " + name == t + " " + name;
    AppliedConcat(s, name, t);
    AppliedConcat(s, t, name);
    AppliedSingle(s, name);
    AppliedSingle(s, t);
    AppliedSingle(Permute(s, p), t);
    AppliedSingle(Unpermute(s, p), name);
    PermuteThenUnpermute(s, p);
    UnpermuteThenPermute(s, p);
  }

  /** How many of the first n facelets of the solved cube hold colour c. */
  function ColourCount(n: nat, c: int): nat
  {
    if c < 0 || c >= 6 || n <= 9 * c then 0
    else if n >= 9 * (c + 1) then 9
    else n - 9 * c
  }

  /** The first n facelets of the solved cube, colour by colour. */
  lemma {:induction false} SolvedPrefixColours(n: nat)
    requires n <= 54
    ensures forall c :: multiset(Solved()[..n])[c] == ColourCount(n, c)
    decreases n
  {
    if n > 0 {
      SolvedPrefixColours(n - 1);
      assert Solved()[..n] == Solved()[..n - 1] + [(n - 1) / 9];
    }
  }

  /** A state with the colours of the solved cube has nine facelets of each
      colour 0..5 and no other value. */
  lemma NineOfEachColour(s: seq<int>)
    requires SolvedColours(s)
    ensures forall c :: 0 <= c < 6 ==> multiset(s)[c] == 9
    ensures forall i :: 0 <= i < 54 ==> 0 <= s[i] < 6
  {
    SolvedPrefixColours(54);
    assert Solved()[..54] == Solved();
    forall i | 0 <= i < 54 ensures 0 <= s[i] < 6 {
      assert s[i] in multiset(s);
    }
  }

  // ---------------------------------------------------------------------
  // The cube object

  /** `Cube` (cube.js:12-43, 90-127): the facelet array in `state`, replaced by a
      fresh array on every basic move. */
  class Cube {
    var state: seq<int>

    ghost predicate Valid()
      reads this
    {
      SolvedColours(state)
    }

    /** `new Cube()`: the solved cube. */
    constructor ()
      ensures Valid()
      ensures |state| == 54 && forall i :: 0 <= i < 54 ==> state[i] == i / 9
    {
      state := Solved();
    }

    /** `apply(moves)`: false where the source throws, with the state reached
        by the tokens before the failing one. */
    method Apply(moves: string) returns (ok: bool)
      requires Valid()
      modifies this
      ensures Valid()
      ensures Run(state, ok) == Applied(old(state), moves)
      decreases MaxRank(Split(moves, ' ')), 1
    {
      var toks := Split(moves, ' ');
      var i := 0;
      while i < |toks|
        invariant 0 <= i <= |toks|
        invariant Valid()
        invariant Applied(old(state), moves) == TokensApplied(state, toks[i..])
        decreases |toks| - i
      {
        MaxRankBound(toks, i);
        TokensStep(state, toks, i);
        ok := ApplyToken(toks[i]);
        if !ok {
          return;
        }
        i := i + 1;
      }
      ok := true;
    }

    /** One token of the loop of cube.js:93-107. */
    method ApplyToken(move: string) returns (ok: bool)
      requires Valid()
      modifies this
      ensures Valid()
      ensures Run(state, ok) == TokenApplied(old(state), move)
      decreases Rank(Base(move)), 0, 1
    {
      if |move| > 0 && move[|move| - 1] == '\'' {
        ok := ApplyMove(move[..|move| - 1], true);
      } else if |move| > 0 && move[|move| - 1] == '2' {
        ok := ApplyMove(move[..|move| - 1], false);
        if ok {
          ok := ApplyMove(move[..|move| - 1], false);
        }
      } else {
        ok := ApplyMove(move, false);
      }
    }

    /** `applyMove(raw, isInverse)`: false where the source throws. */
    method ApplyMove(raw: string, isInverse: bool) returns (ok: bool)
      requires Valid()
      modifies this
      ensures Valid()
      ensures Run(state, ok) == MoveApplied(old(state), raw, isInverse)
      decreases Rank(raw), 0, 0
    {
      var move := Lookup(raw);
      if move.None? {
        return false;
      }
      if move.value.Composite? {
        DefinitionsAcyclic(raw);
        ok := Apply(move.value.def);
        return;
      }
      BasicMovesArePermutations(raw);
      Turn(move.value.p, isInverse);
      ok := true;
      assert Run(state, ok) == MoveApplied(old(state), raw, isInverse);
    }

    /** The array case of `applyMove` (cube.js:117-127): fill a copy of the state
        in one pass over the table, then replace `state` with it. */
    method Turn(p: seq<int>, isInverse: bool)
      requires |state| == 54 && IsTable(p)
      modifies this
      ensures state == if isInverse then Unpermute(old(state), p) else Permute(old(state), p)
    {
      var newState := new int[54];
      forall k | 0 <= k < 54 {
        newState[k] := state[k];
      }
      var i := 0;
      while i < |p|
        invariant 0 <= i <= 54
        invariant isInverse ==> newState[..] == Scatter(state, p, i)
        invariant !isInverse ==> forall k :: 0 <= k < i ==> newState[k] == state[p[k]]
        invariant !isInverse ==> forall k :: i <= k < 54 ==> newState[k] == state[k]
        modifies newState
      {
        if isInverse {
          newState[p[i]] := state[i];
        } else {
          newState[i] := state[p[i]];
        }
        i := i + 1;
      }
      state := newState[..];
    }
  }
}
