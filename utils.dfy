/**
 * The two helpers of public/utils.js that do not touch the DOM:
 * `capitalize` and the fetch status gate `checkStatus`.
 */
module Utils {
  import opened Wrappers
  import opened Decimal

  // ---------------------------------------------------------------------
  // capitalize
  // ---------------------------------------------------------------------

  predicate IsAsciiLower(c: char) {
    'a' <= c <= 'z'
  }

  /** `toUpperCase` on one character, for the ASCII letters a-z. */
  function UpperChar(c: char): (u: char)
    ensures IsAsciiLower(c) ==> u as int == c as int - 32
    ensures !IsAsciiLower(c) ==> u == c
    ensures !IsAsciiLower(u)
  {
    if IsAsciiLower(c) then (c as int - 32) as char else c
  }

  /** `String.prototype.toUpperCase`, character by character. */
  function ToUpperCase(s: string): (r: string)
    ensures |r| == |s|
    ensures forall i :: 0 <= i < |s| ==> r[i] == UpperChar(s[i])
  {
    seq(|s|, i requires 0 <= i < |s| => UpperChar(s[i]))
  }

  /** `s.charAt(i)`: the one-character string at `i`, or "" past the end. */
  function CharAt(s: string, i: nat): (r: string)
    ensures i < |s| ==> r == [s[i]]
    ensures i >= |s| ==> r == ""
  {
    if i < |s| then [s[i]] else ""
  }

  /** `s.slice(start)` for a non-negative start: the suffix, or "" past the end. */
  function Slice(s: string, start: nat): (r: string)
    ensures start <= |s| ==> r == s[start..]
    ensures start > |s| ==> r == ""
  {
    if start <= |s| then s[start..] else ""
  }

  /** `capitalize(word)`: the word with its first character upper-cased. */
  function Capitalize(word: string): (r: string)
    ensures |r| == |word|
    ensures word == "" ==> r == ""
    ensures |word| > 0 ==> r[0] == UpperChar(word[0]) && r[1..] == word[1..]
    ensures |word| > 0 ==> !IsAsciiLower(r[0])
  {
    ToUpperCase(CharAt(word, 0)) + Slice(word, 1)
  }

  /** Capitalizing twice is capitalizing once. */
  lemma CapitalizeIdempotent(word: string)
    ensures Capitalize(Capitalize(word)) == Capitalize(word)
  {
  }

  /** A word is left unchanged exactly when it does not start with a lower-case letter. */
  lemma CapitalizeFixedPoint(word: string)
    ensures Capitalize(word) == word <==> (word == "" || !IsAsciiLower(word[0]))
  {
  }

  // ---------------------------------------------------------------------
  // checkStatus
  // ---------------------------------------------------------------------

  /** The part of a fetch `Response` that `checkStatus` looks at and passes on. */
  datatype Response = Response(status: nat, statusText: string, body: string) {
    /** `response.ok`: the Fetch Standard sets it exactly for a status in 200-299. */
    predicate Ok() {
      200 <= status <= 299
    }
  }

  /** The number of leading decimal digits of `s`. */
  function DigitPrefixLength(s: string): (k: nat)
    ensures k <= |s| && AllDigits(s[..k])
    ensures k < |s| ==> !IsDigit(s[k])
    decreases |s|
  {
    if s != [] && IsDigit(s[0]) then
      var k := 1 + DigitPrefixLength(s[1..]);
      assert s[..k] == [s[0]] + s[1..][..k - 1];
      k
    else 0
  }

  /** Splits an error message back into the status and the status text. */
  function ParseStatusMessage(m: string): Option<(nat, string)> {
    var k := DigitPrefixLength(m);
    if 0 < k && k + 2 <= |m| && m[k..k + 2] == ": " then
      Some((ParseDigits(m[..k]), m[k + 2..]))
    else None
  }

  lemma {:induction false} DigitPrefixOfConcat(digits: string, rest: string)
    requires AllDigits(digits)
    requires rest != [] && !IsDigit(rest[0])
    ensures DigitPrefixLength(digits + rest) == |digits|
    decreases |digits|
  {
    if digits != [] {
      assert (digits + rest)[1..] == digits[1..] + rest;
      DigitPrefixOfConcat(digits[1..], rest);
    } else {
      assert digits + rest == rest;
    }
  }

  /**
   * The message of the `Error` thrown for a failed response, "<status>: <statusText>";
   * the status and the status text can be read back from it.
   */
  function StatusMessage(status: nat, statusText: string): (r: string)
    ensures ParseStatusMessage(r) == Some((status, statusText))
  {
    var digits := NatToString(status);
    var m := digits + (": " + statusText);
    DigitPrefixOfConcat(digits, ": " + statusText);
    assert m[..|digits|] == digits;
    assert m[|digits|..|digits| + 2] == ": ";
    assert m[|digits| + 2..] == statusText;
    ParseNatToString(status);
    m
  }

  /**
   * `checkStatus(response)`: passes an ok response through unchanged and
   * otherwise fails with an error that names the status and the status text.
   */
  function CheckStatus(response: Response): (r: Result<Response, string>)
    ensures r.Success? <==> 200 <= response.status <= 299
    ensures r.Success? ==> r.value == response
    ensures r.Failure? ==> r.error == StatusMessage(response.status, response.statusText)
    ensures r.Failure? ==> ParseStatusMessage(r.error) == Some((response.status, response.statusText))
  {
    if !response.Ok() then
      Failure(StatusMessage(response.status, response.statusText))
    else Success(response)
  }
}
