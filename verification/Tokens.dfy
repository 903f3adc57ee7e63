// Splitting a string at a delimiter the way a `while (getline(...))` loop does:
// used for the dotted property names and for the comma-separated filter strings.
module Tokens {
  // The text before the first delimiter (all of s when there is none).
  function FirstToken(s: string, d: char): (t: string)
    ensures t <= s && d !in t
    ensures |t| < |s| ==> s[|t|] == d
  {
    if s == "" || s[0] == d then "" else [s[0]] + FirstToken(s[1..], d)
  }

  // A stream with nothing left yields no token, so a trailing delimiter is silent.
  function Split(s: string, d: char): seq<string>
    decreases |s|
  {
    if s == "" then [] else
      var t := FirstToken(s, d);
      if |t| == |s| then [t] else [t] + Split(s[|t| + 1..], d)
  }

  method Tokenize(s: string, d: char) returns (tokens: seq<string>)
    ensures tokens == Split(s, d)
  {
    tokens := [];
    var rest := s;
    while rest != ""
      invariant tokens + Split(rest, d) == Split(s, d)
      decreases |rest|
    {
      var t := FirstToken(rest, d);
      assert tokens + Split(rest, d) ==
             (tokens + [t]) + (if |t| == |rest| then [] else Split(rest[|t| + 1..], d));
      tokens := tokens + [t];
      rest := if |t| == |rest| then "" else rest[|t| + 1..];
    }
  }

  function Join(ts: seq<string>, d: char): string {
    if ts == [] then ""
    else if |ts| == 1 then ts[0]
    else ts[0] + [d] + Join(ts[1..], d)
  }

  predicate EndsWith(s: string, d: char) { s != "" && s[|s| - 1] == d }

  // Splitting then joining loses exactly one trailing delimiter, if there is one.
  lemma {:induction false} JoinOfSplit(s: string, d: char)
    ensures Join(Split(s, d), d) == if EndsWith(s, d) then s[..|s| - 1] else s
    decreases |s|
  {
    if s != "" {
      var t := FirstToken(s, d);
      if |t| < |s| {
        var rest := s[|t| + 1..];
        assert s == t + [d] + rest;
        JoinOfSplit(rest, d);
        if rest != "" {
          assert Split(s, d)[1..] == Split(rest, d);
          assert Split(rest, d) != [];
        }
      }
    }
  }

  // The round trip in both directions: it restores a string iff no delimiter ends it,
  // and a list of delimiter-free tokens iff its last token is not empty.
  lemma {:induction false} SplitJoinRoundTrip(s: string, ts: seq<string>, d: char)
    requires forall i | 0 <= i < |ts| :: d !in ts[i]
    ensures Join(Split(s, d), d) == s <==> !EndsWith(s, d)
    ensures Split(Join(ts, d), d) == ts <==> ts == [] || ts[|ts| - 1] != ""
  {
    JoinOfSplit(s, d);
    SplitOfJoin(ts, d);
  }

  lemma FirstTokenOf(t: string, rest: string, d: char)
    requires d !in t
    ensures FirstToken(t, d) == t
    ensures FirstToken(t + [d] + rest, d) == t
  {
    if t != "" {
      FirstTokenOf(t[1..], rest, d);
      assert (t + [d] + rest)[1..] == t[1..] + [d] + rest;
    }
  }

  lemma {:induction false} SplitOfJoin(ts: seq<string>, d: char)
    requires forall i | 0 <= i < |ts| :: d !in ts[i]
    ensures ts != [] && ts[|ts| - 1] == "" ==> Split(Join(ts, d), d) == ts[..|ts| - 1]
    ensures ts == [] || ts[|ts| - 1] != "" ==> Split(Join(ts, d), d) == ts
  {
    if |ts| == 1 {
      FirstTokenOf(ts[0], "", d);
    } else if |ts| > 1 {
      var rest := Join(ts[1..], d);
      SplitOfJoin(ts[1..], d);
      FirstTokenOf(ts[0], rest, d);
      assert Join(ts, d)[|ts[0]| + 1..] == rest;
      assert [ts[0]] + ts[1..] == ts;
      assert [ts[0]] + ts[1..][..|ts| - 2] == ts[..|ts| - 1];
    }
  }

  // Appending further delimited text never disturbs the tokens already there.
  lemma {:induction false} SplitPrefix(s: string, more: string, d: char)
    ensures Split(s, d) <= Split(s + [d] + more, d)
    decreases |s|
  {
    if s != "" {
      var t := FirstToken(s, d);
      if |t| == |s| {
        FirstTokenOf(s, more, d);
      } else {
        var rest := s[|t| + 1..];
        assert s == t + [d] + rest;
        FirstTokenOf(t, rest + [d] + more, d);
        assert s + [d] + more == t + [d] + (rest + [d] + more);
        SplitPrefix(rest, more, d);
      }
    }
  }
}
