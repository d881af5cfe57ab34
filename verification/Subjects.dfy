/** The textual form of account subjects in token claims. */
module Subjects {
  import opened Wrappers
  import opened Decimal

  // A subject is a positive 64-bit integer in decimal; anything else, blanks included, is refused.
  function ParseSubject(text: string): Option<int> {
    match ParseInt(text)
    case None => None
    case Some(n) => if n <= 0 then None else Some(n)
  }

  // Every subject the database can hold is read back as it was written, and nothing else is.
  lemma SubjectRoundTrip(n: int)
    requires INT64_MIN <= n <= INT64_MAX
    ensures ParseSubject(FormatInt(n)) == if n > 0 then Some(n) else None
  {
    ParseFormat(n);
  }

  // Text is a subject exactly when it spells a positive 64-bit integer, signed or padded with zeros or not.
  lemma SubjectIsExact(text: string, n: int)
    ensures ParseSubject(text) == Some(n) <==> 0 < n <= 0x7fff_ffff_ffff_ffff && Spells(text, n)
  {
    ParseIntIsExact(text, n);
  }

  // The check for a blank subject that precedes parsing refuses nothing that parsing accepts.
  lemma BlankIsNoSubject(text: string)
    requires forall i :: 0 <= i < |text| ==> !IsDigit(text[i])
    ensures ParseSubject(text) == None
  {
    var digits := if text != "" && (text[0] == '+' || text[0] == '-') then text[1..] else text;
    if digits != "" {
      assert !IsDigit(digits[0]);
    }
  }
}
