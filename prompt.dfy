/**
 * The two bits of logic in the interactive set-up: reading a yes/no answer
 * (`confirm`) and completing a bare user name into a hey.com address.
 * Terminal input is a sequence of the lines the user would type.
 */
module Prompt {
  import opened Wrappers

  /** The lower-case form of `c` as far as the answer is concerned: only 'Y' and 'N' lower-case to 'y' and 'n'. */
  function LowerAscii(c: char): (r: char)
    ensures r == 'y' <==> c == 'y' || c == 'Y'
    ensures r == 'n' <==> c == 'n' || c == 'N'
  {
    if 'A' <= c <= 'Z' then (c as int - 'A' as int + 'a' as int) as char else c
  }

  /**
   * One answer line: `input().lower() or 'y'`, then decided by the first
   * character. Some(true) is yes, Some(false) is no, None means ask again.
   */
  function Answer(line: string): (r: Option<bool>)
    ensures r == Some(true) <==> line == [] || line[0] == 'y' || line[0] == 'Y'
    ensures r == Some(false) <==> line != [] && (line[0] == 'n' || line[0] == 'N')
  {
    var first := if line == [] then 'y' else LowerAscii(line[0]);
    if first == 'y' then Some(true)
    else if first == 'n' then Some(false)
    else None
  }

  /** Input ran out before a decisive answer (`input` raises EOFError). */
  datatype EndOfInput = EndOfInput

  /**
   * `confirm`: read lines until one is decisive. Returns the answer and how
   * many lines were read; every line before the last one read was ignored.
   */
  method Confirm(lines: seq<string>) returns (r: Result<(bool, nat), EndOfInput>)
    ensures r.Ok? ==> var (yes, used) := r.value;
      && 1 <= used <= |lines|
      && Answer(lines[used - 1]) == Some(yes)
      && forall i :: 0 <= i < used - 1 ==> Answer(lines[i]).None?
    ensures r.Err? <==> forall i :: 0 <= i < |lines| ==> Answer(lines[i]).None?
  {
    var i := 0;
    while i < |lines|
      invariant 0 <= i <= |lines|
      invariant forall k :: 0 <= k < i ==> Answer(lines[k]).None?
    {
      var answer := Answer(lines[i]);
      if answer.Some? {
        return Ok((answer.value, i + 1));
      }
      i := i + 1;
    }
    return Err(EndOfInput);
  }

  /** `email += '@hey.com'` when the address has no '@'. */
  function CompleteEmail(email: string): (r: string)
    ensures '@' in r
    ensures email <= r
    ensures '@' in email ==> r == email
  {
    if '@' in email then email else email + "@hey.com"
  }

  /** Completing a completed address changes nothing. */
  lemma CompleteEmailIdempotent(email: string)
    ensures CompleteEmail(CompleteEmail(email)) == CompleteEmail(email)
  {
  }

  /** A bare user name gets the hey.com domain and nothing else. */
  lemma CompleteBareName(email: string)
    requires '@' !in email
    ensures CompleteEmail(email) == email + "@hey.com"
    ensures CompleteEmail(email)[|email|..] == "@hey.com"
  {
  }
}
