/** Which provider message ids stand for a billable SMS. */
module SmsCredits {
  import opened Options
  import opened Text

  predicate IsHexDigit(c: char) {
    '0' <= c <= '9' || 'a' <= c <= 'f' || 'A' <= c <= 'F'
  }

  /** isBillableSmsProviderMessageId: `SM`, in either case, and 32 hexadecimal digits. */
  predicate IsBillableId(id: Option<string>) {
    && id.Some? && |id.value| == 34 && id.value[0] in "Ss" && id.value[1] in "Mm"
    && forall i :: 2 <= i < 34 ==> IsHexDigit(id.value[i])
  }

  /** The pattern, letter case aside: `SM` and 32 digits of base sixteen. */
  lemma BillableIds(id: string)
    ensures IsBillableId(Some(id)) <==>
      |id| == 34 && Upper(id[..2]) == "SM" && forall c :: c in Upper(id[2..]) ==> c in "0123456789ABCDEF"
    ensures !IsBillableId(None)
  {
    if |id| == 34 {
      var u := Upper(id[2..]);
      assert forall i :: 2 <= i < 34 ==> u[i - 2] == UpperChar(id[i]);
      assert Upper(id[..2]) == [UpperChar(id[0]), UpperChar(id[1])];
      forall i | 2 <= i < 34 ensures IsHexDigit(id[i]) <==> u[i - 2] in "0123456789ABCDEF" {
        HexDigits(id[i]);
      }
    }
  }

  lemma HexDigits(c: char)
    ensures IsHexDigit(c) <==> UpperChar(c) in "0123456789ABCDEF"
  {
  }
}
