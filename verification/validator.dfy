/** get_valid_input: a typed line is accepted when it equals one of the
    listed options ignoring case, and the option is returned in its listed
    spelling.  Typed lines are a finite sequence; the real program waits for
    more input when they run out, which the model reports as None. */
module Validator {
  import opened Results
  import opened Text

  /** Whether a typed line matches an option ignoring case. */
  predicate Matches(input: string, option: string)
  {
    Lower(input) == Lower(option)
  }

  /** `i` is the first position of `options` that the typed line matches. */
  predicate FirstMatch(input: string, options: seq<string>, i: int)
  {
    0 <= i < |options| && Matches(input, options[i]) &&
    forall j :: 0 <= j < i ==> !Matches(input, options[j])
  }

  /** The first option, in list order, that the typed line matches. */
  function MatchOption(input: string, options: seq<string>): (r: Option<string>)
    ensures r.None? <==> forall i :: 0 <= i < |options| ==> !Matches(input, options[i])
    ensures r.Some? ==> r.value in options && Lower(r.value) == Lower(input)
    ensures r.Some? ==> exists i :: FirstMatch(input, options, i) && options[i] == r.value
  {
    if |options| == 0 then None
    else if Matches(input, options[0]) then Some(options[0])
    else
      var r := MatchOption(input, options[1..]);
      if r.Some? then
        var i :| FirstMatch(input, options[1..], i) && options[1..][i] == r.value;
        assert FirstMatch(input, options, i + 1);
        r
      else
        r
  }

  /** The options matched by the typed lines that are accepted, in order:
      rejected lines contribute nothing. */
  function Accepted(lines: seq<string>, options: seq<string>): (r: seq<string>)
    ensures |r| <= |lines|
    ensures forall v :: v in r ==> v in options
  {
    if |lines| == 0 then []
    else
      match MatchOption(lines[0], options)
      case None => Accepted(lines[1..], options)
      case Some(v) => [v] + Accepted(lines[1..], options)
  }

  lemma {:induction false} AcceptedAppend(a: seq<string>, b: seq<string>, options: seq<string>)
    ensures Accepted(a + b, options) == Accepted(a, options) + Accepted(b, options)
  {
    if |a| > 0 {
      assert (a + b)[1..] == a[1..] + b;
      AcceptedAppend(a[1..], b, options);
    } else {
      assert a + b == b;
    }
  }

  lemma AcceptedSplit(lines: seq<string>, k: nat, options: seq<string>)
    requires k <= |lines|
    ensures Accepted(lines, options) == Accepted(lines[..k], options) + Accepted(lines[k..], options)
  {
    assert lines == lines[..k] + lines[k..];
    AcceptedAppend(lines[..k], lines[k..], options);
  }

  /** Rejected lines contribute nothing to the accepted answers. */
  lemma {:induction false} AcceptedNone(lines: seq<string>, options: seq<string>)
    requires forall i :: 0 <= i < |lines| ==> MatchOption(lines[i], options).None?
    ensures Accepted(lines, options) == []
  {
    if |lines| > 0 {
      AcceptedNone(lines[1..], options);
    }
  }

  /** When line k-1 is the first accepted one, the first k lines yield its
      option alone, and the accepted answers continue with the rest. */
  lemma AcceptedFirst(lines: seq<string>, k: nat, options: seq<string>, v: string)
    requires 0 < k <= |lines|
    requires forall i :: 0 <= i < k - 1 ==> MatchOption(lines[i], options).None?
    requires MatchOption(lines[k - 1], options) == Some(v)
    ensures Accepted(lines[..k], options) == [v]
    ensures Accepted(lines, options) == [v] + Accepted(lines[k..], options)
  {
    assert lines[..k] == lines[..k - 1] + [lines[k - 1]];
    AcceptedNone(lines[..k - 1], options);
    AcceptedAppend(lines[..k - 1], [lines[k - 1]], options);
    AcceptedSplit(lines, k, options);
  }

  /** Line k-1 is the first of `lines` accepted for `options`, and its
      answer is `v`. */
  ghost predicate FirstAnswer(lines: seq<string>, options: seq<string>, k: int, v: string)
  {
    0 < k <= |lines| && MatchOption(lines[k - 1], options) == Some(v) &&
    forall i :: 0 <= i < k - 1 ==> MatchOption(lines[i], options).None?
  }

  /** At most one line is the first accepted one, so FirstAnswer fixes both
      the answer and the number of lines consumed. */
  lemma FirstAnswerUnique(lines: seq<string>, options: seq<string>, k: int, v: string, k': int, v': string)
    requires FirstAnswer(lines, options, k, v) && FirstAnswer(lines, options, k', v')
    ensures k == k' && v == v'
  {
  }

  /** The retry loop: consumes typed lines until one matches an option and
      returns that option with the number of lines consumed, or None when
      every remaining line is rejected.  By AcceptedFirst, successive calls
      read successive entries of Accepted. */
  method GetValidInput(lines: seq<string>, options: seq<string>) returns (r: Option<(string, nat)>)
    ensures r.None? <==> forall i :: 0 <= i < |lines| ==> MatchOption(lines[i], options).None?
    ensures r.Some? ==> FirstAnswer(lines, options, r.value.1, r.value.0)
    ensures r.Some? ==> r.value.0 in options
  {
    var k := 0;
    while k < |lines|
      invariant 0 <= k <= |lines|
      invariant forall i :: 0 <= i < k ==> MatchOption(lines[i], options).None?
    {
      var m := MatchOption(lines[k], options);
      if m.Some? {
        return Some((m.value, k + 1));
      }
      k := k + 1;
    }
    return None;
  }
}
