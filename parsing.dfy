/**
 * What the filter parsers share: the `ValueError`s they raise, and
 * `sum(map(parse, tokens), [])`, which parses the tokens left to right and
 * concatenates the lists, stopping at the first token that fails.
 */
module Parsing {
  import opened Wrappers

  /** The `ValueError`s of the filter parser, one per message. */
  datatype FilterError =
    | InvalidToken                     // `int()` or the `-` unpacking rejected a difficulty token
    | InvalidDifficulty                // "Invalid difficulty, only 0-10 are allowed"
    | InvalidCategory(word: string)    // "Invalid category: ..."
    | InvalidArgument                  // "Invalid argument"

  /** `sum(map(parse, tokens), [])`. */
  function ParseAll<T>(tokens: seq<string>, parse: string -> Result<seq<T>, FilterError>): Result<seq<T>, FilterError> {
    if tokens == [] then Ok([])
    else match parse(tokens[0])
      case Err(e) => Err(e)
      case Ok(xs) =>
        match ParseAll(tokens[1..], parse)
        case Err(e) => Err(e)
        case Ok(ys) => Ok(xs + ys)
  }

  /**
   * The concatenation succeeds iff every token parses, and then holds
   * exactly the members of the tokens' lists; otherwise it fails with the
   * error of the first token that does not parse.
   */
  lemma {:induction false} ParseAllFacts<T>(tokens: seq<string>, parse: string -> Result<seq<T>, FilterError>)
    ensures ParseAll(tokens, parse).Ok? <==> forall k :: 0 <= k < |tokens| ==> parse(tokens[k]).Ok?
    ensures ParseAll(tokens, parse).Ok? ==>
      forall y :: y in ParseAll(tokens, parse).value <==> exists k :: 0 <= k < |tokens| && y in parse(tokens[k]).value
    ensures ParseAll(tokens, parse).Err? ==>
      exists k :: 0 <= k < |tokens| && parse(tokens[k]) == Err(ParseAll(tokens, parse).error) &&
        forall j :: 0 <= j < k ==> parse(tokens[j]).Ok?
  {
    if tokens != [] {
      var rest := tokens[1..];
      ParseAllFacts(rest, parse);
      forall k | 0 < k < |tokens| ensures tokens[k] == rest[k - 1] {}
      if parse(tokens[0]).Ok? && ParseAll(rest, parse).Ok? {
        var xs, ys := parse(tokens[0]).value, ParseAll(rest, parse).value;
        forall y ensures y in xs + ys <==> exists k :: 0 <= k < |tokens| && y in parse(tokens[k]).value {
          if y in ys {
            var k :| 0 <= k < |rest| && y in parse(rest[k]).value;
            assert y in parse(tokens[k + 1]).value;
          }
        }
      } else if parse(tokens[0]).Ok? {
        var k :| 0 <= k < |rest| && parse(rest[k]) == Err(ParseAll(rest, parse).error) &&
          forall j :: 0 <= j < k ==> parse(rest[j]).Ok?;
        assert parse(tokens[k + 1]) == Err(ParseAll(tokens, parse).error);
        forall j | 0 <= j < k + 1 ensures parse(tokens[j]).Ok? {
          if j > 0 {
            assert parse(rest[j - 1]).Ok?;
          }
        }
      }
    }
  }
}
