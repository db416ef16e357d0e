/** `oce/langid/constants.py`: a second copy of `tabulate_pinyin`, kept
    beside the language identifier. Its loops are the same, line for line,
    as those of `oce/config.py`, so it is modelled by running that
    construction; what it promises is stated here about its own result. */
module LangidConstants {
  import opened PinyinTable

  /** `tabulate_pinyin()` of `constants.py`: the same table as the one
      `config.py` builds, keyed by the 23 initials, with `a` and `o` given
      by their own loops and `v`/`ve` only after `n` and `l`. */
  method TabulatePinyin() returns (table: Table)
    ensures table == ValidPinyin()
    ensures table.Keys == AllInitials
    ensures forall i: Initial :: i in table
    ensures forall i: Initial :: (A in table[i] <==> i !in {R, J, Q, X}) && (O in table[i] <==> i in {B, P, M, F, W})
    ensures forall i: Initial :: (V in table[i] <==> i in {N, L}) && (Ve in table[i] <==> i in {N, L})
  {
    table := PinyinTable.TabulatePinyin();
    TableKeys();
    forall i: Initial
      ensures (A in table[i] <==> i !in {R, J, Q, X}) && (O in table[i] <==> i in {B, P, M, F, W})
      ensures (V in table[i] <==> i in {N, L}) && (Ve in table[i] <==> i in {N, L})
    {
      AAndO(i);
      UaiAndV(i);
    }
  }
}
