/**
 * `generate_params`: the arguments a user types after a command are sorted
 * into difficulty tokens (any digit) and category words (letters only); each
 * non-empty group is parsed by its filter, and the request parameters hold
 * the question type plus one entry per non-empty group.
 */
module Params {
  import opened Wrappers
  import opened Text
  import opened Parsing
  import opened DifficultyFilter
  import opened CategoryFilter

  /** The parameter dict: `difficulties` and `subcategories` are present only when given. */
  datatype Params = Params(questionType: string, difficulties: Option<seq<int>>, subcategories: Option<seq<string>>)

  /** The argument is neither a difficulty token nor a category word. */
  predicate Invalid(arg: string) {
    !HasDigit(arg) && !IsAlpha(arg)
  }

  /** The routing loop: `(diffs, cats)`, or "Invalid argument" for an argument that is neither. */
  function Route(argv: seq<string>): (r: Result<(seq<string>, seq<string>), FilterError>)
    ensures r.Err? <==> exists k :: 0 <= k < |argv| && Invalid(argv[k])
    ensures r.Err? ==> r.error == InvalidArgument
  {
    if argv == [] then Ok(([], []))
    else
      var init, arg := argv[..|argv| - 1], argv[|argv| - 1];
      RouteInit(argv, init, arg);
      match Route(init)
      case Err(e) => Err(e)
      case Ok(lists) =>
        if HasDigit(arg) then Ok((lists.0 + [arg], lists.1))
        else if IsAlpha(arg) then Ok((lists.0, lists.1 + [arg]))
        else Err(InvalidArgument)
  }

  /** An argument list is invalid iff its front part is or its last argument is. */
  lemma RouteInit(argv: seq<string>, init: seq<string>, arg: string)
    requires argv == init + [arg]
    ensures (exists k :: 0 <= k < |argv| && Invalid(argv[k])) <==>
      (exists k :: 0 <= k < |init| && Invalid(init[k])) || Invalid(arg)
  {
    assert forall k :: 0 <= k < |init| ==> init[k] == argv[k];
    assert argv[|init|] == arg;
  }

  /**
   * Every difficulty token holds a digit, every category word is letters only
   * (hence digit-free), and together they are the arguments, each exactly once.
   */
  lemma {:induction false} RouteKinds(argv: seq<string>)
    requires Route(argv).Ok?
    ensures forall d <- Route(argv).value.0 :: HasDigit(d)
    ensures forall c <- Route(argv).value.1 :: IsAlpha(c) && !HasDigit(c)
    ensures multiset(Route(argv).value.0) + multiset(Route(argv).value.1) == multiset(argv)
  {
    if argv != [] {
      var init, arg := argv[..|argv| - 1], argv[|argv| - 1];
      assert argv == init + [arg];
      RouteKinds(init);
      var lists := Route(init).value;
      if HasDigit(arg) {
        assert Route(argv).value == (lists.0 + [arg], lists.1);
      } else {
        assert Route(argv).value == (lists.0, lists.1 + [arg]);
      }
    }
  }

  /** Routing two runs of arguments routes each, keeping their order within each group. */
  lemma {:induction false} RouteAppend(a: seq<string>, b: seq<string>)
    requires Route(a).Ok? && Route(b).Ok?
    ensures Route(a + b) == Ok((Route(a).value.0 + Route(b).value.0, Route(a).value.1 + Route(b).value.1))
    decreases |b|
  {
    if b == [] {
      assert a + b == a;
      assert Route(a).value.0 + [] == Route(a).value.0 && Route(a).value.1 + [] == Route(a).value.1;
    } else {
      var init, arg := b[..|b| - 1], b[|b| - 1];
      assert b == init + [arg];
      assert a + b == (a + init) + [arg];
      assert (a + b)[..|a + b| - 1] == a + init;
      RouteInit(b, init, arg);
      RouteAppend(a, init);
      var ra, ri := Route(a).value, Route(init).value;
      assert (ra.0 + ri.0) + [arg] == ra.0 + (ri.0 + [arg]);
      assert (ra.1 + ri.1) + [arg] == ra.1 + (ri.1 + [arg]);
    }
  }

  /** A group present only when its list is non-empty: `if xs: params[key] = parse(xs)`. */
  function Optionally<T>(present: bool, parsed: Result<seq<T>, FilterError>): (r: Result<Option<seq<T>>, FilterError>)
    ensures !present ==> r == Ok(None)
    ensures present ==> (r.Ok? <==> parsed.Ok?) && (r.Ok? ==> r.value == Some(parsed.value)) && (r.Err? ==> r.error == parsed.error)
  {
    if !present then Ok(None)
    else match parsed
      case Err(e) => Err(e)
      case Ok(v) => Ok(Some(v))
  }

  /** The dict built from the routed groups and what their parsers returned, difficulties first. */
  function Assemble(questionType: string, lists: (seq<string>, seq<string>),
                    difficulties: Result<seq<int>, FilterError>, subcategories: Result<seq<string>, FilterError>): Result<Params, FilterError> {
    match Optionally(lists.0 != [], difficulties)
    case Err(e) => Err(e)
    case Ok(d) =>
      match Optionally(lists.1 != [], subcategories)
      case Err(e) => Err(e)
      case Ok(c) => Ok(Params(questionType, d, c))
  }

  /** `generate_params(question_type, argv)`. */
  function Generate(questionType: string, argv: seq<string>): Result<Params, FilterError> {
    match Route(argv)
    case Err(e) => Err(e)
    case Ok(lists) => Assemble(questionType, lists, ParseIntRange(lists.0), Subcats(lists.1))
  }

  /** The routing loop appends to `diffs` or `cats`; then each non-empty group is parsed. */
  method GenerateParams(questionType: string, argv: seq<string>) returns (r: Result<Params, FilterError>)
    ensures r == Generate(questionType, argv)
  {
    var diffs: seq<string> := [];
    var cats: seq<string> := [];
    var i := 0;
    while i < |argv|
      invariant 0 <= i <= |argv|
      invariant Route(argv[..i]) == Ok((diffs, cats))
    {
      var arg := argv[i];
      assert argv[..i + 1][..i] == argv[..i];
      if HasDigit(arg) {
        diffs := diffs + [arg];
      } else if IsAlpha(arg) {
        cats := cats + [arg];
      } else {
        assert Invalid(argv[i]);
        return Err(InvalidArgument);
      }
      i := i + 1;
    }
    assert argv[..i] == argv;
    var difficulties: Option<seq<int>> := None;
    if diffs != [] {
      match ParseIntRange(diffs) {
        case Err(e) => return Err(e);
        case Ok(ds) => difficulties := Some(ds);
      }
    }
    var subcategories: Option<seq<string>> := None;
    if cats != [] {
      var parsed := ParseSubcats(cats);
      match parsed {
        case Err(e) => return Err(e);
        case Ok(ss) => subcategories := Some(ss);
      }
    }
    r := Ok(Params(questionType, difficulties, subcategories));
  }

  /**
   * The dict keeps the question type and has each key exactly when its group
   * is non-empty; a failing difficulty parse is reported before a failing
   * category parse, and a group that is absent is never parsed.
   */
  lemma AssembleFacts(questionType: string, lists: (seq<string>, seq<string>),
                      difficulties: Result<seq<int>, FilterError>, subcategories: Result<seq<string>, FilterError>)
    ensures var r := Assemble(questionType, lists, difficulties, subcategories);
      && (r.Ok? <==> (lists.0 == [] || difficulties.Ok?) && (lists.1 == [] || subcategories.Ok?))
      && (r.Ok? ==> r.value.questionType == questionType)
      && (r.Ok? ==> (r.value.difficulties.Some? <==> lists.0 != []) && (r.value.subcategories.Some? <==> lists.1 != []))
      && (r.Ok? && lists.0 != [] ==> r.value.difficulties == Some(difficulties.value))
      && (r.Ok? && lists.1 != [] ==> r.value.subcategories == Some(subcategories.value))
      && (lists.0 != [] && difficulties.Err? ==> r == Err(difficulties.error))
      && ((lists.0 == [] || difficulties.Ok?) && lists.1 != [] && subcategories.Err? ==> r == Err(subcategories.error))
  {
  }

  /** A group is non-empty exactly when some argument of its kind was given. */
  lemma {:induction false} RouteGroups(argv: seq<string>)
    requires Route(argv).Ok?
    ensures Route(argv).value.0 != [] <==> exists k :: 0 <= k < |argv| && HasDigit(argv[k])
    ensures Route(argv).value.1 != [] <==> exists k :: 0 <= k < |argv| && IsAlpha(argv[k])
  {
    if argv != [] {
      var init, arg := argv[..|argv| - 1], argv[|argv| - 1];
      RouteInit(argv, init, arg);
      RouteGroups(init);
      assert forall k :: 0 <= k < |init| ==> init[k] == argv[k];
      assert argv[|init|] == arg;
      if IsAlpha(arg) {
        AlphaNoDigit(arg);
      }
    }
  }

  /** Any invalid argument fails the call with "Invalid argument", before either filter is parsed. */
  lemma GenerateRejects(questionType: string, argv: seq<string>)
    requires exists k :: 0 <= k < |argv| && Invalid(argv[k])
    ensures Generate(questionType, argv) == Err(InvalidArgument)
  {
  }
}
