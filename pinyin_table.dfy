/** The table of valid pinyin syllables, `valid_pinyin`, built by
    `tabulate_pinyin` in `oce/config.py` (and, identically, in
    `oce/langid/constants.py`): for each initial, the list of finals that
    may follow it, in the order the loops of the builder append them. */
module PinyinTable {
  import opened Wrappers

  /** The 23 initials: the keys of the table. */
  datatype Initial = B | P | M | F | D | T | N | L | G | K | H | Z | C | S | R | J | Q | X | W | Y | Zh | Ch | Sh

  /** The finals, declared in the order the builder appends them. */
  datatype Final =
    | A | O | E | Ai | Ei | Ao | Ou | An | Ang | U | En | Eng | Ong | Ua | Uo | Uai | Uang | Ui | Uan | Un
    | I | Ia | Ie | Iao | Ian | Iu | Iang | In | Ing | Iong | Ue | V | Ve

  /** The number of finals. */
  const FinalCount := 33

  /** `all_initials`: the twenty letters and `zh`, `ch`, `sh`. */
  const AllInitials: set<Initial> :=
    {B, P, M, F, D, T, N, L, G, K, H, Z, C, S, R, J, Q, X, W, Y, Zh, Ch, Sh}

  lemma EveryInitial(i: Initial)
    ensures i in AllInitials
  {
  }

  function InitialName(i: Initial): (r: string)
    ensures 1 <= |r| <= 2 && (|r| == 2 <==> i in {Zh, Ch, Sh})
    ensures |r| == 2 ==> r[1] == 'h'
  {
    match i
    case B => "b" case P => "p" case M => "m" case F => "f" case D => "d" case T => "t" case N => "n"
    case L => "l" case G => "g" case K => "k" case H => "h" case Z => "z" case C => "c" case S => "s"
    case R => "r" case J => "j" case Q => "q" case X => "x" case W => "w" case Y => "y"
    case Zh => "zh" case Ch => "ch" case Sh => "sh"
  }

  function FinalName(f: Final): (r: string)
    ensures 1 <= |r| <= 4 && r[0] in "aoeuiv"
    ensures forall k :: 0 <= k < |r| ==> 'a' <= r[k] <= 'z'
  {
    match f
    case A => "a" case O => "o" case E => "e" case Ai => "ai" case Ei => "ei" case Ao => "ao" case Ou => "ou"
    case An => "an" case Ang => "ang" case U => "u" case En => "en" case Eng => "eng" case Ong => "ong"
    case Ua => "ua" case Uo => "uo" case Uai => "uai" case Uang => "uang" case Ui => "ui" case Uan => "uan"
    case Un => "un" case I => "i" case Ia => "ia" case Ie => "ie" case Iao => "iao" case Ian => "ian"
    case Iu => "iu" case Iang => "iang" case In => "in" case Ing => "ing" case Iong => "iong" case Ue => "ue"
    case V => "v" case Ve => "ve"
  }

  /** The final a string spells, if any: the inverse of `FinalName`,
      read letter by letter. */
  function ParseFinal(s: string): (r: Option<Final>)
  {
    if |s| == 1 then ParseFinal1(s[0])
    else if |s| == 2 then ParseFinal2(s[0], s[1])
    else if |s| == 3 then ParseFinal3(s[0], s[1], s[2])
    else if |s| == 4 then ParseFinal4(s[0], s[1], s[2], s[3])
    else None
  }

  function ParseFinal1(a: char): Option<Final>
  {
    if a == 'a' then Some(A)
    else if a == 'o' then Some(O)
    else if a == 'e' then Some(E)
    else if a == 'u' then Some(U)
    else if a == 'i' then Some(I)
    else if a == 'v' then Some(V)
    else None
  }

  function ParseFinal2(a: char, b: char): Option<Final>
  {
    if a == 'a' && b == 'i' then Some(Ai)
    else if a == 'e' && b == 'i' then Some(Ei)
    else if a == 'a' && b == 'o' then Some(Ao)
    else if a == 'o' && b == 'u' then Some(Ou)
    else if a == 'a' && b == 'n' then Some(An)
    else if a == 'e' && b == 'n' then Some(En)
    else if a == 'u' && b == 'a' then Some(Ua)
    else if a == 'u' && b == 'o' then Some(Uo)
    else if a == 'u' && b == 'i' then Some(Ui)
    else if a == 'u' && b == 'n' then Some(Un)
    else if a == 'i' && b == 'a' then Some(Ia)
    else if a == 'i' && b == 'e' then Some(Ie)
    else if a == 'i' && b == 'u' then Some(Iu)
    else if a == 'i' && b == 'n' then Some(In)
    else if a == 'u' && b == 'e' then Some(Ue)
    else if a == 'v' && b == 'e' then Some(Ve)
    else None
  }

  function ParseFinal3(a: char, b: char, c: char): Option<Final>
  {
    if a == 'a' && b == 'n' && c == 'g' then Some(Ang)
    else if a == 'e' && b == 'n' && c == 'g' then Some(Eng)
    else if a == 'o' && b == 'n' && c == 'g' then Some(Ong)
    else if a == 'u' && b == 'a' && c == 'i' then Some(Uai)
    else if a == 'u' && b == 'a' && c == 'n' then Some(Uan)
    else if a == 'i' && b == 'a' && c == 'o' then Some(Iao)
    else if a == 'i' && b == 'a' && c == 'n' then Some(Ian)
    else if a == 'i' && b == 'n' && c == 'g' then Some(Ing)
    else None
  }

  function ParseFinal4(a: char, b: char, c: char, d: char): Option<Final>
  {
    if a == 'u' && b == 'a' && c == 'n' && d == 'g' then Some(Uang)
    else if a == 'i' && b == 'a' && c == 'n' && d == 'g' then Some(Iang)
    else if a == 'i' && b == 'o' && c == 'n' && d == 'g' then Some(Iong)
    else None
  }

  lemma ParseFinalName(f: Final)
    ensures ParseFinal(FinalName(f)) == Some(f)
  {
    if f in {A, O, E, Ai, Ei, Ao} {
      ParseFinalNameA(f);
    }     else if f in {Ou, An, Ang, En, Eng, Ong} {
      ParseFinalNameO(f);
    }     else if f in {U, Ua, Uo, Uai, Uang} {
      ParseFinalNameU(f);
    }     else if f in {Ui, Uan, Un, Ue} {
      ParseFinalNameUe(f);
    }     else if f in {I, Ia, Ie, Iao, Ian, Iu} {
      ParseFinalNameI(f);
    } else {
      ParseFinalNameIn(f);
    }
  }

  lemma ParseFinalNameA(f: Final)
    requires f in {A, O, E, Ai, Ei, Ao}
    ensures ParseFinal(FinalName(f)) == Some(f)
  {
    match f {
      case A => assert ParseFinal("a") == Some(A);
      case O => assert ParseFinal("o") == Some(O);
      case E => assert ParseFinal("e") == Some(E);
      case Ai => assert ParseFinal("ai") == Some(Ai);
      case Ei => assert ParseFinal("ei") == Some(Ei);
      case Ao => assert ParseFinal("ao") == Some(Ao);
    }
  }

  lemma ParseFinalNameO(f: Final)
    requires f in {Ou, An, Ang, En, Eng, Ong}
    ensures ParseFinal(FinalName(f)) == Some(f)
  {
    match f {
      case Ou => assert ParseFinal("ou") == Some(Ou);
      case An => assert ParseFinal("an") == Some(An);
      case Ang => assert ParseFinal("ang") == Some(Ang);
      case En => assert ParseFinal("en") == Some(En);
      case Eng => assert ParseFinal("eng") == Some(Eng);
      case Ong => assert ParseFinal("ong") == Some(Ong);
    }
  }

  lemma ParseFinalNameU(f: Final)
    requires f in {U, Ua, Uo, Uai, Uang}
    ensures ParseFinal(FinalName(f)) == Some(f)
  {
    match f {
      case U => assert ParseFinal("u") == Some(U);
      case Ua => assert ParseFinal("ua") == Some(Ua);
      case Uo => assert ParseFinal("uo") == Some(Uo);
      case Uai => assert ParseFinal("uai") == Some(Uai);
      case Uang => assert ParseFinal("uang") == Some(Uang);
    }
  }

  lemma ParseFinalNameUe(f: Final)
    requires f in {Ui, Uan, Un, Ue}
    ensures ParseFinal(FinalName(f)) == Some(f)
  {
    match f {
      case Ui => assert ParseFinal("ui") == Some(Ui);
      case Uan => assert ParseFinal("uan") == Some(Uan);
      case Un => assert ParseFinal("un") == Some(Un);
      case Ue => assert ParseFinal("ue") == Some(Ue);
    }
  }

  lemma ParseFinalNameI(f: Final)
    requires f in {I, Ia, Ie, Iao, Ian, Iu}
    ensures ParseFinal(FinalName(f)) == Some(f)
  {
    match f {
      case I => assert ParseFinal("i") == Some(I);
      case Ia => assert ParseFinal("ia") == Some(Ia);
      case Ie => assert ParseFinal("ie") == Some(Ie);
      case Iao => assert ParseFinal("iao") == Some(Iao);
      case Ian => assert ParseFinal("ian") == Some(Ian);
      case Iu => assert ParseFinal("iu") == Some(Iu);
    }
  }

  lemma ParseFinalNameIn(f: Final)
    requires f in {Iang, In, Ing, Iong, V, Ve}
    ensures ParseFinal(FinalName(f)) == Some(f)
  {
    match f {
      case Iang => assert ParseFinal("iang") == Some(Iang);
      case In => assert ParseFinal("in") == Some(In);
      case Ing => assert ParseFinal("ing") == Some(Ing);
      case Iong => assert ParseFinal("iong") == Some(Iong);
      case V => assert ParseFinal("v") == Some(V);
      case Ve => assert ParseFinal("ve") == Some(Ve);
    }
  }

  /** Distinct finals have distinct spellings. */
  lemma FinalNameInjective(f: Final, g: Final)
    ensures FinalName(f) == FinalName(g) <==> f == g
  {
    ParseFinalName(f);
    ParseFinalName(g);
  }

  /** The position of a final in the order the builder appends them. */
  function Rank(f: Final): (r: nat)
    ensures r < FinalCount
  {
    match f
    case A => 0 case O => 1 case E => 2 case Ai => 3 case Ei => 4 case Ao => 5 case Ou => 6 case An => 7
    case Ang => 8 case U => 9 case En => 10 case Eng => 11 case Ong => 12 case Ua => 13 case Uo => 14
    case Uai => 15 case Uang => 16 case Ui => 17 case Uan => 18 case Un => 19 case I => 20 case Ia => 21
    case Ie => 22 case Iao => 23 case Ian => 24 case Iu => 25 case Iang => 26 case In => 27 case Ing => 28
    case Iong => 29 case Ue => 30 case V => 31 case Ve => 32
  }

  /** The final appended `r`-th. */
  function FinalAt(r: nat): Final
    requires r < FinalCount
  {
    if r < 16 then
      if r < 8 then
        if r == 0 then A else if r == 1 then O else if r == 2 then E else if r == 3 then Ai
        else if r == 4 then Ei else if r == 5 then Ao else if r == 6 then Ou else An
      else
        if r == 8 then Ang else if r == 9 then U else if r == 10 then En else if r == 11 then Eng
        else if r == 12 then Ong else if r == 13 then Ua else if r == 14 then Uo else Uai
    else
      if r < 24 then
        if r == 16 then Uang else if r == 17 then Ui else if r == 18 then Uan else if r == 19 then Un
        else if r == 20 then I else if r == 21 then Ia else if r == 22 then Ie else Iao
      else
        if r == 24 then Ian else if r == 25 then Iu else if r == 26 then Iang else if r == 27 then In
        else if r == 28 then Ing else if r == 29 then Iong else if r == 30 then Ue else if r == 31 then V else Ve
  }

  /** `Rank` and `FinalAt` are inverse: each position holds one final and
      each final has one position. */
  lemma RankFinalAt(r: nat)
    requires r < FinalCount
    ensures Rank(FinalAt(r)) == r
  {
  }

  lemma FinalAtRank(f: Final)
    ensures FinalAt(Rank(f)) == f
  {
  }

  lemma RankIs(f: Final, r: nat)
    requires r < FinalCount
    ensures f == FinalAt(r) <==> Rank(f) == r
  {
    RankFinalAt(r);
    FinalAtRank(f);
  }

  /** The initials each final is appended to: the set each loop of the
      builder runs over. */
  function Owners(f: Final): set<Initial>
  {
    match f
    case A => AllInitials - {R, J, Q, X}
    case O => {B, P, M, F, W}
    case E => AllInitials - {B, P, F, J, Q, X, W}
    case Ai => AllInitials - {F, R, J, Q, X, Y}
    case Ei => AllInitials - {C, S, R, J, Q, X, Y} - {Ch}
    case Ao => AllInitials - {F, J, Q, X, W}
    case Ou => AllInitials - {B, J, Q, X, W}
    case An | Ang | U => AllInitials - {J, Q, X}
    case En => AllInitials - {T, L, J, Q, X, Y}
    case Eng => AllInitials - {J, Q, X, Y}
    case Ong => AllInitials - {B, P, M, F, J, Q, X, W} - {Sh}
    case Ua => {G, K, H, R} + {Zh, Ch, Sh}
    case Uo => AllInitials - {B, P, M, F, J, Q, X, W, Y}
    case Uai | Uang => AllInitials - {B, P, M, F, D, T, N, L, Z, C, S, R, J, Q, X, W, Y}
    case Ui => AllInitials - {B, P, M, F, N, L, J, Q, X, W, Y}
    case Uan | Un => AllInitials - {B, P, M, F, J, Q, X, W}
    case I => AllInitials - {F, G, K, H, W}
    case Ia => {D, L, J, Q, X}
    case Ie | Iao | Ian => {B, P, M, D, T, N, L, J, Q, X}
    case Iu => {M, D, N, L, J, Q, X}
    case Iang => {N, L, J, Q, X}
    case In => {B, P, M, N, L, J, Q, X, Y}
    case Ing => {B, P, M, D, T, N, L, J, Q, X, Y}
    case Iong | Ue => {J, Q, X, Y}
    case V | Ve => {N, L}
  }

  type Table = map<Initial, seq<Final>>

  /** The list of initial `i` once the first `r` finals are appended. */
  function Prefix(i: Initial, r: nat): seq<Final>
    requires r <= FinalCount
  {
    if r == 0 then []
    else Prefix(i, r - 1) + (if i in Owners(FinalAt(r - 1)) then [FinalAt(r - 1)] else [])
  }

  /** The table once the first `r` finals are appended. */
  function Stage(r: nat): Table
    requires r <= FinalCount
  {
    map i | i in AllInitials :: Prefix(i, r)
  }

  /** `valid_pinyin` */
  function ValidPinyin(): Table
  {
    Stage(FinalCount)
  }

  /** What one loop of the builder does: append `finals` to the list of
      each initial in `initials`. */
  function Appended(table: Table, initials: set<Initial>, finals: seq<Final>): (t: Table)
    ensures t.Keys == table.Keys
  {
    map k | k in table :: if k in initials then table[k] + finals else table[k]
  }

  /** `finals` are the finals appended next, after the first `r`, and
      `initials` is the set they are appended for. */
  predicate IsGroup(r: nat, initials: set<Initial>, finals: seq<Final>)
  {
    r + |finals| <= FinalCount &&
    forall j :: 0 <= j < |finals| ==> finals[j] == FinalAt(r + j) && Owners(finals[j]) == initials
  }

  /** Appending a group to one initial's list. */
  lemma {:induction false} PrefixGroup(i: Initial, r: nat, initials: set<Initial>, finals: seq<Final>)
    requires IsGroup(r, initials, finals)
    ensures Prefix(i, r + |finals|) == Prefix(i, r) + (if i in initials then finals else [])
    decreases |finals|
  {
    if finals != [] {
      var n := |finals| - 1;
      GroupLast(i, r, initials, finals);
      PrefixGroup(i, r, initials, finals[..n]);
      PrefixNext(i, r + n);
      AppendLast(Prefix(i, r), finals, i in initials);
    }
  }

  lemma PrefixNext(i: Initial, k: nat)
    requires k < FinalCount
    ensures Prefix(i, k + 1) == Prefix(i, k) + (if i in Owners(FinalAt(k)) then [FinalAt(k)] else [])
  {
  }

  /** A group without its last final is a group, and the last final is the
      next one appended. */
  lemma GroupLast(i: Initial, r: nat, initials: set<Initial>, finals: seq<Final>)
    requires IsGroup(r, initials, finals) && finals != []
    ensures IsGroup(r, initials, finals[..|finals| - 1])
    ensures FinalAt(r + |finals| - 1) == finals[|finals| - 1]
    ensures i in Owners(finals[|finals| - 1]) <==> i in initials
  {
  }

  lemma AppendLast(p: seq<Final>, finals: seq<Final>, b: bool)
    requires finals != []
    ensures p + (if b then finals else []) ==
            p + (if b then finals[..|finals| - 1] else []) + (if b then [finals[|finals| - 1]] else [])
  {
    if b {
      assert finals == finals[..|finals| - 1] + [finals[|finals| - 1]];
    }
  }

  /** A loop over one group takes the table from one stage to the next. */
  lemma StageStep(r: nat, initials: set<Initial>, finals: seq<Final>)
    requires IsGroup(r, initials, finals)
    ensures Appended(Stage(r), initials, finals) == Stage(r + |finals|)
  {
    forall i | i in AllInitials
      ensures Appended(Stage(r), initials, finals)[i] == Stage(r + |finals|)[i]
    {
      PrefixGroup(i, r, initials, finals);
    }
  }

  /** The loops of the builder, in order: each runs over the initials of
      the finals it appends, and together they append every final once. */
  lemma Groups1()
    ensures IsGroup(0, AllInitials - {R, J, Q, X}, [A])
    ensures IsGroup(1, {B, P, M, F, W}, [O])
    ensures IsGroup(2, AllInitials - {B, P, F, J, Q, X, W}, [E])
    ensures IsGroup(3, AllInitials - {F, R, J, Q, X, Y}, [Ai])
    ensures IsGroup(4, AllInitials - {C, S, R, J, Q, X, Y} - {Ch}, [Ei])
  {
  }

  lemma Groups2()
    ensures IsGroup(5, AllInitials - {F, J, Q, X, W}, [Ao])
    ensures IsGroup(6, AllInitials - {B, J, Q, X, W}, [Ou])
    ensures IsGroup(7, AllInitials - {J, Q, X}, [An, Ang, U])
    ensures IsGroup(10, AllInitials - {T, L, J, Q, X, Y}, [En])
    ensures IsGroup(11, AllInitials - {J, Q, X, Y}, [Eng])
  {
  }

  lemma Groups3()
    ensures IsGroup(12, AllInitials - {B, P, M, F, J, Q, X, W} - {Sh}, [Ong])
    ensures IsGroup(13, {G, K, H, R} + {Zh, Ch, Sh}, [Ua])
    ensures IsGroup(14, AllInitials - {B, P, M, F, J, Q, X, W, Y}, [Uo])
    ensures IsGroup(15, AllInitials - {B, P, M, F, D, T, N, L, Z, C, S, R, J, Q, X, W, Y}, [Uai, Uang])
    ensures IsGroup(17, AllInitials - {B, P, M, F, N, L, J, Q, X, W, Y}, [Ui])
  {
  }

  lemma Groups4()
    ensures IsGroup(18, AllInitials - {B, P, M, F, J, Q, X, W}, [Uan, Un])
    ensures IsGroup(20, AllInitials - {F, G, K, H, W}, [I])
    ensures IsGroup(21, {D, L, J, Q, X}, [Ia])
  {
  }

  lemma Groups5()
    ensures IsGroup(22, {B, P, M, D, T, N, L, J, Q, X}, [Ie, Iao, Ian])
    ensures IsGroup(25, {M, D, N, L, J, Q, X}, [Iu])
  {
  }

  lemma Groups6()
    ensures IsGroup(26, {N, L, J, Q, X}, [Iang])
    ensures IsGroup(27, {B, P, M, N, L, J, Q, X, Y}, [In])
    ensures IsGroup(28, {B, P, M, D, T, N, L, J, Q, X, Y}, [Ing])
  {
  }

  lemma Groups7()
    ensures IsGroup(29, {J, Q, X, Y}, [Iong, Ue])
    ensures IsGroup(31, {N, L}, [V, Ve])
  {
  }

  /** The inner loop of one group: for each initial of the set, append the
      group's finals. */
  method AppendGroup(table: Table, initials: set<Initial>, finals: seq<Final>, ghost r: nat) returns (t: Table)
    requires IsGroup(r, initials, finals) && table == Stage(r)
    ensures t == Stage(r + |finals|)
  {
    t := table;
    var todo := initials;
    while todo != {}
      invariant todo <= initials
      invariant t == Appended(table, initials - todo, finals)
      decreases todo
    {
      var i :| i in todo;
      EveryInitial(i);
      t := t[i := t[i] + finals];
      todo := todo - {i};
    }
    StageStep(r, initials, finals);
  }

  /** `tabulate_pinyin()`: start every initial with an empty list, then run
      the loops, one per final or group of finals, in the order written. */
  method TabulatePinyin() returns (table: Table)
    ensures table == ValidPinyin()
  {
    table := map[];
    var todo := AllInitials;
    while todo != {}
      invariant table == map i | i in AllInitials - todo :: []
      decreases todo
    {
      var i :| i in todo;
      table := table[i := []];
      todo := todo - {i};
    }
    assert table == Stage(0);
    table := LoopsAToEi(table);
    table := LoopsAoToEng(table);
    table := LoopsOngToUi(table);
    table := LoopsUanToIu(table);
    table := LoopsIangToVe(table);
  }

  /** The loops appending the finals of ranks 0 to 4. */
  method LoopsAToEi(table: Table) returns (t: Table)
    requires table == Stage(0)
    ensures t == Stage(5)
  {
    Groups1();
    t := table;
    t := AppendGroup(t, AllInitials - {R, J, Q, X}, [A], 0);
    t := AppendGroup(t, {B, P, M, F, W}, [O], 1);
    t := AppendGroup(t, AllInitials - {B, P, F, J, Q, X, W}, [E], 2);
    t := AppendGroup(t, AllInitials - {F, R, J, Q, X, Y}, [Ai], 3);
    t := AppendGroup(t, AllInitials - {C, S, R, J, Q, X, Y} - {Ch}, [Ei], 4);
  }

  /** The loops appending the finals of ranks 5 to 11. */
  method LoopsAoToEng(table: Table) returns (t: Table)
    requires table == Stage(5)
    ensures t == Stage(12)
  {
    Groups2();
    t := table;
    t := AppendGroup(t, AllInitials - {F, J, Q, X, W}, [Ao], 5);
    t := AppendGroup(t, AllInitials - {B, J, Q, X, W}, [Ou], 6);
    t := AppendGroup(t, AllInitials - {J, Q, X}, [An, Ang, U], 7);
    t := AppendGroup(t, AllInitials - {T, L, J, Q, X, Y}, [En], 10);
    t := AppendGroup(t, AllInitials - {J, Q, X, Y}, [Eng], 11);
  }

  /** The loops appending the finals of ranks 12 to 17. */
  method LoopsOngToUi(table: Table) returns (t: Table)
    requires table == Stage(12)
    ensures t == Stage(18)
  {
    Groups3();
    t := table;
    t := AppendGroup(t, AllInitials - {B, P, M, F, J, Q, X, W} - {Sh}, [Ong], 12);
    t := AppendGroup(t, {G, K, H, R} + {Zh, Ch, Sh}, [Ua], 13);
    t := AppendGroup(t, AllInitials - {B, P, M, F, J, Q, X, W, Y}, [Uo], 14);
    t := AppendGroup(t, AllInitials - {B, P, M, F, D, T, N, L, Z, C, S, R, J, Q, X, W, Y}, [Uai, Uang], 15);
    t := AppendGroup(t, AllInitials - {B, P, M, F, N, L, J, Q, X, W, Y}, [Ui], 17);
  }

  /** The loops appending the finals of ranks 18 to 25. */
  method LoopsUanToIu(table: Table) returns (t: Table)
    requires table == Stage(18)
    ensures t == Stage(26)
  {
    Groups4();
    Groups5();
    t := table;
    t := AppendGroup(t, AllInitials - {B, P, M, F, J, Q, X, W}, [Uan, Un], 18);
    t := AppendGroup(t, AllInitials - {F, G, K, H, W}, [I], 20);
    t := AppendGroup(t, {D, L, J, Q, X}, [Ia], 21);
    t := AppendGroup(t, {B, P, M, D, T, N, L, J, Q, X}, [Ie, Iao, Ian], 22);
    t := AppendGroup(t, {M, D, N, L, J, Q, X}, [Iu], 25);
  }

  /** The loops appending the finals of ranks 26 to 32. */
  method LoopsIangToVe(table: Table) returns (t: Table)
    requires table == Stage(26)
    ensures t == Stage(33)
  {
    Groups6();
    Groups7();
    t := table;
    t := AppendGroup(t, {N, L, J, Q, X}, [Iang], 26);
    t := AppendGroup(t, {B, P, M, N, L, J, Q, X, Y}, [In], 27);
    t := AppendGroup(t, {B, P, M, D, T, N, L, J, Q, X, Y}, [Ing], 28);
    t := AppendGroup(t, {J, Q, X, Y}, [Iong, Ue], 29);
    t := AppendGroup(t, {N, L}, [V, Ve], 31);
  }

  // ---------------------------------------------------------------------------
  // What the table holds
  // ---------------------------------------------------------------------------

  /** A final is in the list of an initial once appended exactly when it
      is among the first `r` and its loop runs over that initial. */
  lemma {:induction false} PrefixHas(i: Initial, r: nat, f: Final)
    requires r <= FinalCount
    ensures f in Prefix(i, r) <==> Rank(f) < r && i in Owners(f)
    decreases r
  {
    if r > 0 {
      PrefixHas(i, r - 1, f);
      PrefixNext(i, r - 1);
      var g := FinalAt(r - 1);
      RankIs(f, r - 1);
      HasStep(Prefix(i, r - 1), Prefix(i, r), g, f, Owners(f), Owners(g), i, Rank(f), r);
    }
  }

  /** One step of `PrefixHas`, with the owners and the rank of `f` given. */
  lemma HasStep(p: seq<Final>, q: seq<Final>, g: Final, f: Final, own: set<Initial>, ownG: set<Initial>,
                i: Initial, rank: nat, r: nat)
    requires r > 0
    requires q == p + (if i in ownG then [g] else [])
    requires f in p <==> rank < r - 1 && i in own
    requires f == g <==> rank == r - 1
    requires f == g ==> own == ownG
    ensures f in q <==> rank < r && i in own
  {
  }

  /** The finals of a list come in the order they are appended, each
      after the ones appended before it. */
  lemma {:induction false} PrefixAscends(i: Initial, r: nat)
    requires r <= FinalCount
    ensures forall a, b :: 0 <= a < b < |Prefix(i, r)| ==> Rank(Prefix(i, r)[a]) < Rank(Prefix(i, r)[b])
    ensures forall a :: 0 <= a < |Prefix(i, r)| ==> Rank(Prefix(i, r)[a]) < r
    decreases r
  {
    if r > 0 {
      PrefixAscends(i, r - 1);
      PrefixNext(i, r - 1);
      var f := FinalAt(r - 1);
      RankFinalAt(r - 1);
      if i in Owners(f) {
        SnocAscends(Prefix(i, r - 1), f, r - 1);
      }
    }
  }

  /** A final of the next rank keeps a list in ascending order. */
  lemma SnocAscends(p: seq<Final>, f: Final, r: nat)
    requires forall a, b :: 0 <= a < b < |p| ==> Rank(p[a]) < Rank(p[b])
    requires forall a :: 0 <= a < |p| ==> Rank(p[a]) < r
    requires Rank(f) == r
    ensures var q := p + [f];
      (forall a, b :: 0 <= a < b < |q| ==> Rank(q[a]) < Rank(q[b])) && forall a :: 0 <= a < |q| ==> Rank(q[a]) < r + 1
  {
    var q := p + [f];
    assert forall a :: 0 <= a < |p| ==> q[a] == p[a];
    assert q[|p|] == f;
  }

  /** The keys of the table are exactly the 23 initials, so looking up any
      initial succeeds. */
  lemma TableKeys()
    ensures ValidPinyin().Keys == AllInitials
    ensures forall i: Initial :: i in ValidPinyin()
  {
    forall i: Initial ensures i in ValidPinyin() {
      EveryInitial(i);
    }
  }

  /** `valid_pinyin[i]`: every initial is a key, so the lookup succeeds. */
  function FinalsOf(i: Initial): seq<Final>
  {
    TableKeys();
    ValidPinyin()[i]
  }

  /** A final is valid after an initial exactly when the builder's loop
      for that final runs over the initial. */
  lemma TableHas(i: Initial, f: Final)
    ensures f in ValidPinyin()[i] <==> i in Owners(f)
  {
    EveryInitial(i);
    PrefixHas(i, FinalCount, f);
  }

  /** No final appears twice in an initial's list, and the lists follow
      the order of the loops. */
  lemma NoDuplicates(i: Initial)
    ensures var fs := ValidPinyin()[i];
            forall a, b :: 0 <= a < b < |fs| ==> fs[a] != fs[b] && Rank(fs[a]) < Rank(fs[b])
  {
    EveryInitial(i);
    PrefixAscends(i, FinalCount);
  }

  /** `a` is valid after every initial but `r`, `j`, `q`, `x`; `o` only
      after `b`, `p`, `m`, `f`, `w`. */
  lemma AAndO(i: Initial)
    ensures A in ValidPinyin()[i] <==> i !in {R, J, Q, X}
    ensures O in ValidPinyin()[i] <==> i in {B, P, M, F, W}
  {
    TableHas(i, A);
    TableHas(i, O);
    OwnersOfA(i);
    OwnersOfO(i);
  }

  lemma OwnersOfA(i: Initial)
    ensures i in Owners(A) <==> i !in {R, J, Q, X}
  {
    EveryInitial(i);
  }

  lemma OwnersOfO(i: Initial)
    ensures i in Owners(O) <==> i in {B, P, M, F, W}
  {
  }

  /** `uai` and `uang` follow only `g`, `k`, `h`, `zh`, `ch`, `sh`; `v` and
      `ve` only `n` and `l`. */
  lemma UaiAndV(i: Initial)
    ensures Uai in ValidPinyin()[i] <==> i in {G, K, H, Zh, Ch, Sh}
    ensures Uang in ValidPinyin()[i] <==> i in {G, K, H, Zh, Ch, Sh}
    ensures V in ValidPinyin()[i] <==> i in {N, L}
    ensures Ve in ValidPinyin()[i] <==> i in {N, L}
  {
    TableHas(i, Uai);
    TableHas(i, Uang);
    TableHas(i, V);
    TableHas(i, Ve);
    OwnersOfUai(i);
    OwnersOfV(i);
  }

  lemma OwnersOfUai(i: Initial)
    ensures i in Owners(Uai) <==> i in {G, K, H, Zh, Ch, Sh}
    ensures Owners(Uang) == Owners(Uai)
  {
    EveryInitial(i);
  }

  lemma OwnersOfV(i: Initial)
    ensures i in Owners(V) <==> i in {N, L}
    ensures Owners(Ve) == Owners(V)
  {
  }

  /** After `j`, `q` and `x` come only finals beginning with `i`, and
      `ue`. */
  lemma PalatalFinals(i: Initial, f: Final)
    requires i in {J, Q, X}
    ensures f in ValidPinyin()[i] ==> FinalName(f)[0] == 'i' || f == Ue
  {
    TableHas(i, f);
    PalatalOwners(f);
    if f != Ue && i in Owners(f) {
      IFinalNames(f);
    }
  }

  lemma IFinalNames(f: Final)
    requires f in {I, Ia, Ie, Iao, Ian, Iu, Iang, In, Ing, Iong}
    ensures FinalName(f)[0] == 'i'
  {
  }

  lemma PalatalOwners(f: Final)
    ensures J in Owners(f) || Q in Owners(f) || X in Owners(f) ==> f in {I, Ia, Ie, Iao, Ian, Iu, Iang, In, Ing, Iong, Ue}
  {
  }
}
