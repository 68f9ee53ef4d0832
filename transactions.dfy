/** Ledger records and the validation of the add-transaction form (money.js). */
module Transactions {

  /** The two kinds a record can have: the form's `type` radio button. */
  datatype Kind = Income | Expense

  /** One ledger record, `{id, description, amount, type, date}`.
      `amount` is an exact real in place of a JavaScript number;
      `date` is the creation time in epoch milliseconds. */
  datatype Transaction = Transaction(id: int, description: string, amount: real, kind: Kind, date: int)

  datatype Option<T> = None | Some(value: T)

  datatype Result<T, E> = Success(value: T) | Failure(error: E)

  /** What `parseFloat` makes of the amount field: NaN or a number. */
  datatype ParsedAmount = NaN | Number(value: real)

  /** The one way the form is rejected ("Please enter valid description and amount"). */
  datatype AddError = InvalidSubmission

  /** Every amount is strictly positive: what the add form guarantees of the records it creates. */
  predicate AllPositive(s: seq<Transaction>)
  {
    forall i :: 0 <= i < |s| ==> s[i].amount > 0.0
  }

  /** Putting a record with a positive amount in front keeps every amount positive. */
  lemma PrependPositive(t: Transaction, s: seq<Transaction>)
    requires t.amount > 0.0
    ensures AllPositive(s) ==> AllPositive([t] + s)
  {
    assert forall i :: 1 <= i <= |s| ==> ([t] + s)[i] == s[i - 1];
  }

  /** The characters `String.prototype.trim` removes: ECMAScript WhiteSpace and LineTerminator. */
  predicate IsWhitespace(c: char)
  {
    || c == '\t' || c == '\n' || c == '\U{B}' || c == '\U{C}' || c == '\r' || c == ' '
    || c == '\U{A0}' || c == '\U{1680}' || ('\U{2000}' <= c <= '\U{200A}')
    || c == '\U{2028}' || c == '\U{2029}' || c == '\U{202F}' || c == '\U{205F}'
    || c == '\U{3000}' || c == '\U{FEFF}'
  }

  /** Drops the leading whitespace. */
  function TrimStart(s: string): (r: string)
    ensures |r| <= |s| && r == s[|s| - |r|..]
    ensures forall i :: 0 <= i < |s| - |r| ==> IsWhitespace(s[i])
    ensures r == [] || !IsWhitespace(r[0])
  {
    if s != [] && IsWhitespace(s[0]) then TrimStart(s[1..]) else s
  }

  /** Drops the trailing whitespace. */
  function TrimEnd(s: string): (r: string)
    ensures |r| <= |s| && r == s[..|r|]
    ensures forall i :: |r| <= i < |s| ==> IsWhitespace(s[i])
    ensures r == [] || !IsWhitespace(r[|r| - 1])
  {
    if s != [] && IsWhitespace(s[|s| - 1]) then TrimEnd(s[..|s| - 1]) else s
  }

  /** `s.trim()`: the slice of `s` left after removing whitespace at both ends. */
  function Trim(s: string): (r: string)
    ensures exists i, j :: 0 <= i <= j <= |s| && r == s[i..j]
                           && (forall k :: 0 <= k < i ==> IsWhitespace(s[k]))
                           && (forall k :: j <= k < |s| ==> IsWhitespace(s[k]))
    ensures r == [] || (!IsWhitespace(r[0]) && !IsWhitespace(r[|r| - 1]))
    ensures r == [] <==> forall k :: 0 <= k < |s| ==> IsWhitespace(s[k])
  {
    var t := TrimStart(s);
    var r := TrimEnd(t);
    assert r == s[|s| - |t|..|s| - |t| + |r|];
    r
  }

  /** The check at the top of `handleAddTransaction`: the trimmed description must be
      non-empty and the parsed amount must be neither NaN, nor zero, nor negative.
      On success it gives the description and amount the new record stores. */
  function Validate(description: string, amount: ParsedAmount): (r: Result<(string, real), AddError>)
    ensures r.Success? <==> Trim(description) != [] && amount.Number? && amount.value > 0.0
    ensures r.Success? ==> r.value.0 == Trim(description) && r.value.0 != [] && r.value.1 == amount.value
  {
    var d := Trim(description);
    if d == [] || amount.NaN? || amount.value == 0.0 || amount.value <= 0.0 then
      Failure(InvalidSubmission)
    else
      Success((d, amount.value))
  }
}
