/** Splitting a line at spaces and tabs (`TokenCursor` in src/protocol/TextCodec.cpp). */
module Tokenizing {
  import opened Wrappers

  predicate IsBlank(c: char) {
    c == ' ' || c == '\t'
  }

  predicate Blanks(s: string) {
    forall i :: 0 <= i < |s| ==> IsBlank(s[i])
  }

  /** A possible field: not empty, without blanks. */
  predicate IsToken(s: string) {
    s != "" && forall i :: 0 <= i < |s| ==> !IsBlank(s[i])
  }

  /** How many characters precede the first blank. */
  function TokenLength(s: string): (n: nat)
    ensures n <= |s|
    ensures forall i :: 0 <= i < n ==> !IsBlank(s[i])
    ensures n < |s| ==> IsBlank(s[n])
  {
    if s == "" || IsBlank(s[0]) then 0 else 1 + TokenLength(s[1..])
  }

  function Tokens(s: string): (tokens: seq<string>)
    ensures forall k :: 0 <= k < |tokens| ==> IsToken(tokens[k])
    decreases |s|
  {
    if s == "" then []
    else if IsBlank(s[0]) then Tokens(s[1..])
    else [s[..TokenLength(s)]] + Tokens(s[TokenLength(s)..])
  }

  // ---------------------------------------------------------------- spacing does not matter

  lemma {:induction false} BlanksSkipped(blanks: string, s: string)
    requires Blanks(blanks)
    ensures Tokens(blanks + s) == Tokens(s)
  {
    if blanks == "" {
      assert blanks + s == s;
    } else {
      assert (blanks + s)[1..] == blanks[1..] + s;
      BlanksSkipped(blanks[1..], s);
    }
  }

  lemma {:induction false} TokenEnds(token: string, s: string)
    requires forall i :: 0 <= i < |token| ==> !IsBlank(token[i])
    requires s == "" || IsBlank(s[0])
    ensures TokenLength(token + s) == |token|
  {
    if token == "" {
      assert token + s == s;
    } else {
      assert (token + s)[0] == token[0] && (token + s)[1..] == token[1..] + s;
      TokenEnds(token[1..], s);
    }
  }

  lemma TokenCut(token: string, s: string)
    requires IsToken(token) && (s == "" || IsBlank(s[0]))
    ensures Tokens(token + s) == [token] + Tokens(s)
  {
    var all := token + s;
    TokenEnds(token, s);
    assert all[0] == token[0];
    assert all[..|token|] == token && all[|token|..] == s;
  }

  /** A field and the blanks behind it. */
  datatype Field = Field(token: string, gap: string)

  /** The fields are tokens, and every two of them are separated. */
  predicate Separated(fields: seq<Field>) {
    forall k :: 0 <= k < |fields| ==>
      IsToken(fields[k].token) && Blanks(fields[k].gap) && (k < |fields| - 1 ==> fields[k].gap != "")
  }

  function Written(fields: seq<Field>): string {
    if fields == [] then "" else fields[0].token + fields[0].gap + Written(fields[1..])
  }

  function TokensOf(fields: seq<Field>): (tokens: seq<string>)
    ensures |tokens| == |fields|
    ensures forall k :: 0 <= k < |fields| ==> tokens[k] == fields[k].token
  {
    seq(|fields|, k requires 0 <= k < |fields| => fields[k].token)
  }

  lemma SeparatedTail(fields: seq<Field>)
    requires fields != [] && Separated(fields)
    ensures Separated(fields[1..]) && (fields[0].gap == "" ==> fields[1..] == [])
  {
    var rest := fields[1..];
    forall k | 0 <= k < |rest|
      ensures IsToken(rest[k].token) && Blanks(rest[k].gap) && (k < |rest| - 1 ==> rest[k].gap != "")
    {
      assert rest[k] == fields[k + 1];
    }
  }

  /** Whatever blanks come first and between the fields, the tokens are the fields. */
  lemma {:induction false} SpacingIsIgnored(lead: string, fields: seq<Field>)
    requires Blanks(lead) && Separated(fields)
    ensures Tokens(lead + Written(fields)) == TokensOf(fields)
    decreases |fields|
  {
    BlanksSkipped(lead, Written(fields));
    if fields != [] {
      var token, gap, rest := fields[0].token, fields[0].gap, fields[1..];
      SeparatedTail(fields);
      SpacingIsIgnored(gap, rest);
      assert gap == "" ==> gap + Written(rest) == "";
      TokenCut(token, gap + Written(rest));
      assert Written(fields) == token + (gap + Written(rest));
      assert TokensOf(fields) == [token] + TokensOf(rest);
    }
  }

  lemma SeparatedCons(first: Field, rest: seq<Field>)
    requires IsToken(first.token) && Blanks(first.gap) && (rest != [] ==> first.gap != "")
    requires Separated(rest)
    ensures Separated([first] + rest) && TokensOf([first] + rest) == [first.token] + TokensOf(rest)
    ensures Written([first] + rest) == first.token + (first.gap + Written(rest))
  {
    assert ([first] + rest)[1..] == rest;
  }

  /** Blanks or nothing come before fields that do not begin a text. */
  lemma GapComesFirst(gap: string, rest: seq<Field>)
    requires Blanks(gap) && Separated(rest)
    requires gap + Written(rest) == "" || IsBlank((gap + Written(rest))[0])
    ensures rest != [] ==> gap != ""
  {
    if rest != [] {
      assert Written(rest)[0] == rest[0].token[0];
      assert !IsBlank(rest[0].token[0]);
      assert gap == "" ==> gap + Written(rest) == Written(rest);
    }
  }

  /** Every line is some spacing of its tokens, so the two lemmas together say what the tokens of a line are. */
  lemma {:induction false} EveryLineIsSpaced(s: string) returns (lead: string, fields: seq<Field>)
    ensures Blanks(lead) && Separated(fields)
    ensures s == lead + Written(fields) && Tokens(s) == TokensOf(fields)
    decreases |s|
  {
    if s == "" {
      lead, fields := "", [];
    } else if IsBlank(s[0]) {
      lead, fields := EveryLineIsSpaced(s[1..]);
      assert s == ([s[0]] + lead) + Written(fields);
      lead := [s[0]] + lead;
    } else {
      var n := TokenLength(s);
      var gap, rest := EveryLineIsSpaced(s[n..]);
      GapComesFirst(gap, rest);
      SeparatedCons(Field(s[..n], gap), rest);
      lead, fields := "", [Field(s[..n], gap)] + rest;
      assert s == s[..n] + (gap + Written(rest));
    }
  }

  // ---------------------------------------------------------------- the cursor

  /** A position in a line. Its view: the tokens of the whole line, and how many of them were taken. */
  class TokenCursor {
    var remaining: string
    ghost const all: seq<string>
    ghost var taken: nat

    ghost predicate Valid()
      reads this
    {
      taken <= |all| && Tokens(remaining) == all[taken..]
    }

    constructor (input: string)
      ensures Valid() && all == Tokens(input) && taken == 0
    {
      remaining, all, taken := input, Tokens(input), 0;
    }

    method SkipWhitespace()
      requires Valid()
      modifies this`remaining
      ensures Valid() && (remaining == "" || !IsBlank(remaining[0]))
    {
      var first := 0;
      while first < |remaining| && IsBlank(remaining[first])
        invariant first <= |remaining| && remaining == old(remaining)
        invariant Blanks(remaining[..first])
      {
        first := first + 1;
      }
      BlanksSkipped(remaining[..first], remaining[first..]);
      assert remaining == remaining[..first] + remaining[first..];
      remaining := remaining[first..];
    }

    method Next() returns (token: Option<string>)
      requires Valid()
      modifies this
      ensures Valid()
      ensures if old(taken) < |all| then token == Some(all[old(taken)]) && taken == old(taken) + 1
        else token == None && taken == old(taken)
    {
      SkipWhitespace();
      if remaining == "" {
        return None;
      }
      ghost var line := remaining;
      var end := 0;
      while end < |remaining| && !IsBlank(remaining[end])
        invariant end <= |remaining| && remaining == line
        invariant forall i :: 0 <= i < end ==> !IsBlank(remaining[i])
      {
        end := end + 1;
      }
      TokenCut(line[..end], line[end..]);
      assert line == line[..end] + line[end..];
      token := Some(remaining[..end]);
      remaining := remaining[end..];
      taken := taken + 1;
    }

    method Empty() returns (empty: bool)
      requires Valid()
      modifies this`remaining
      ensures Valid() && (empty <==> taken == |all|)
    {
      SkipWhitespace();
      empty := remaining == "";
    }
  }
}
