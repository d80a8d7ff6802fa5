/** The scanner: characters come from a peek/consume input function over
    the source text, line and column are counted as characters are
    consumed, and each call of `Scan` produces the next lexical unit.

    The input function is the file reader of the command-line driver: a
    peek returns the current char (reading the first one if nothing has
    been read yet); a consume reads the next char, makes it current and
    returns it. A C `char` is signed, so a text char is seen as its signed
    byte value, and end of file is -1. */
module Lexer {
  import opened Common
  import Hashing

  const EOF: int := -1

  /** `LEX_TYPES`. */
  datatype LexType =
    | Eof | Identifier | Number | CharLit | Error
    | AndKw | DoKw | ElseKw | EndKw | IfKw | InitKw | ModuleKw | NotKw | OrKw
    | PrintCharKw | PrintIntKw | SpawnKw | StopKw | TaskKw | ThenKw | WhileKw
    | AssignSym | EqSym | NeSym | GtSym | GeSym | LtSym | LeSym
    | LParenSym | RParenSym | SemicolonSym
    | TimesSym | DivideSym | RemainderSym | PlusSym | MinusSym

  /** `lex_is_keyword`. */
  predicate IsKeyword(t: LexType)
  {
    t in {AndKw, DoKw, ElseKw, EndKw, IfKw, InitKw, ModuleKw, NotKw, OrKw,
          PrintCharKw, PrintIntKw, SpawnKw, StopKw, TaskKw, ThenKw, WhileKw}
  }

  /** `lex_is_symbol`. */
  predicate IsSymbol(t: LexType)
  {
    t in {AssignSym, EqSym, NeSym, GtSym, GeSym, LtSym, LeSym, LParenSym, RParenSym,
          SemicolonSym, TimesSym, DivideSym, RemainderSym, PlusSym, MinusSym}
  }

  /** `LEXICAL_UNIT`: where it starts, its type, and the name (identifiers
      and keywords) or value (numbers) scanned. */
  datatype LexUnit = LexUnit(line: nat, column: int, kind: LexType, name: string, number: int)

  // ---- characters -----------------------------------------------------------

  /** The value of a text char as a C `char`. */
  function CharValue(c: char): int
  {
    Hashing.SignedChar(c)
  }

  /** `fgetc` as the `char` it is stored in: the i-th char, or EOF. */
  function Fgetc(text: string, i: nat): int
  {
    if i < |text| then CharValue(text[i]) else EOF
  }

  predicate IsWhitespace(v: int) { 0 < v <= 32 }
  predicate IsUpper(v: int) { 'A' as int <= v <= 'Z' as int }
  predicate IsLower(v: int) { 'a' as int <= v <= 'z' as int }
  predicate IsAlpha(v: int) { IsUpper(v) || IsLower(v) }
  predicate IsDigit(v: int) { '0' as int <= v <= '9' as int }
  predicate IsAlnum(v: int) { IsAlpha(v) || IsDigit(v) }
  predicate IsIdentChar(v: int) { v == '_' as int || IsAlnum(v) }
  /** `ispunct` in the C locale: printable, not a space, not alphanumeric. */
  predicate IsPunct(v: int) { 33 <= v <= 126 && !IsAlnum(v) }

  /** How far the input has been read, and the line and column counters.
      `next` is the number of chars read from the file so far. */
  datatype Cursor = Cursor(next: nat, line: nat, column: nat)

  /** Nothing read yet, line 1, column 1. */
  const Start: Cursor := Cursor(0, 1, 1)

  /** The char a peek returns. */
  function Current(text: string, c: Cursor): int
  {
    Fgetc(text, if c.next == 0 then 0 else c.next - 1)
  }

  /** The cursor after a peek: the first peek reads the first char. */
  function Peeked(c: Cursor): (r: Cursor)
    ensures r.next >= 1 && r.line == c.line && r.column == c.column
  {
    if c.next == 0 then c.(next := 1) else c
  }

  /** The cursor after a consume, which reads the next char: a newline
      returned moves to column 1 of the next line, any other char to the
      next column. */
  function Consumed(text: string, c: Cursor): (r: Cursor)
    ensures r.next == c.next + 1
  {
    var ch := Fgetc(text, c.next);
    if ch == '\n' as int then Cursor(c.next + 1, c.line + 1, 1)
    else Cursor(c.next + 1, c.line, c.column + 1)
  }

  function ConsumeN(text: string, c: Cursor, k: nat): (r: Cursor)
    ensures r.next == c.next + k
    decreases k
  {
    if k == 0 then c else ConsumeN(text, Consumed(text, c), k - 1)
  }

  lemma {:induction false} ConsumeNSnoc(text: string, c: Cursor, k: nat)
    ensures ConsumeN(text, c, k + 1) == Consumed(text, ConsumeN(text, c, k))
    decreases k
  {
    if k > 0 {
      ConsumeNSnoc(text, Consumed(text, c), k - 1);
    }
  }

  /** A cursor that has read no further than one past the end. */
  predicate InText(text: string, c: Cursor)
  {
    c.next <= |text| + 1
  }

  /** Only a char read from the text (not EOF) can be whitespace, a letter,
      a digit or punctuation. */
  lemma RealChar(text: string, c: Cursor)
    requires c.next >= 1 && Current(text, c) != EOF
    ensures c.next <= |text|
  {
  }

  // ---- whitespace ---------------------------------------------------------------

  /** `lex_skip_whitespace`: consume chars while the current one is
      whitespace. It stops at the first other char, without consuming it;
      every char skipped was whitespace. */
  function AfterWhitespace(text: string, c: Cursor): (r: Cursor)
    requires InText(text, c)
    ensures InText(text, r) && r.next >= 1 && r.next >= c.next
    ensures !IsWhitespace(Current(text, r))
    ensures forall i :: Peeked(c).next - 1 <= i < r.next - 1 ==> IsWhitespace(Fgetc(text, i))
    decreases |text| + 1 - c.next
  {
    var c1 := Peeked(c);
    if IsWhitespace(Current(text, c1)) then AfterWhitespace(text, Consumed(text, c1)) else c1
  }

  // ---- identifiers and keywords -------------------------------------------------

  /** The length of the run of identifier chars starting at index `i`. */
  function IdentRun(text: string, i: nat): (k: nat)
    ensures i + k <= |text| || k == 0
    decreases |text| - i
  {
    if i < |text| && IsIdentChar(CharValue(text[i])) then 1 + IdentRun(text, i + 1) else 0
  }

  /** The run is made of identifier chars and stops at the first char
      that is not one, or at the end of the text. */
  lemma {:induction false} IdentRunSpec(text: string, i: nat)
    ensures forall j :: i <= j < i + IdentRun(text, i) ==> IsIdentChar(CharValue(text[j]))
    ensures !IsIdentChar(Fgetc(text, i + IdentRun(text, i)))
    decreases |text| - i
  {
    if i < |text| && IsIdentChar(CharValue(text[i])) {
      IdentRunSpec(text, i + 1);
    }
  }

  /** The chars of an identifier that are kept: at most `MAX_STR - 1`. */
  function Kept(k: nat, maxStr: nat): (n: nat)
    ensures n <= k && (n < k ==> n + 1 == maxStr || maxStr == 0)
  {
    if k < maxStr then k else if maxStr == 0 then 0 else maxStr - 1
  }

  /** The keyword table, in ascending `strcmp` order. */
  const KEYWORDS: seq<(string, LexType)> := [
    ("and", AndKw), ("do", DoKw), ("else", ElseKw), ("end", EndKw),
    ("if", IfKw), ("init", InitKw), ("module", ModuleKw), ("not", NotKw),
    ("or", OrKw), ("print_char", PrintCharKw), ("print_int", PrintIntKw),
    ("spawn", SpawnKw), ("stop", StopKw), ("task", TaskKw), ("then", ThenKw),
    ("while", WhileKw)]

  /** `strcmp(a, b) < 0`. */
  predicate StrLess(a: string, b: string)
  {
    if a == [] then b != []
    else if b == [] then false
    else if a[0] != b[0] then a[0] < b[0]
    else StrLess(a[1..], b[1..])
  }

  lemma {:induction false} StrLessIrreflexive(a: string)
    ensures !StrLess(a, a)
  {
    if a != [] {
      StrLessIrreflexive(a[1..]);
    }
  }

  lemma {:induction false} StrLessTransitive(a: string, b: string, c: string)
    requires StrLess(a, b) && StrLess(b, c)
    ensures StrLess(a, c)
  {
    if a != [] && a[0] == b[0] && b[0] == c[0] {
      StrLessTransitive(a[1..], b[1..], c[1..]);
    }
  }

  lemma KeywordsAdjacentSorted()
    ensures forall i :: 0 <= i < |KEYWORDS| - 1 ==> StrLess(KEYWORDS[i].0, KEYWORDS[i + 1].0)
  {
    PrintCharBeforePrintInt();
  }

  /** The one adjacent pair of keywords that share a long prefix. */
  lemma PrintCharBeforePrintInt()
    ensures StrLess("print_char", "print_int")
  {
    assert "print_char"[1..] == "rint_char" && "print_int"[1..] == "rint_int";
    assert StrLess("rint_char", "rint_int") by {
      assert "rint_char"[1..] == "int_char" && "rint_int"[1..] == "int_int";
      assert StrLess("int_char", "int_int") by {
        assert "int_char"[1..] == "nt_char" && "int_int"[1..] == "nt_int";
        assert StrLess("nt_char", "nt_int") by {
          assert "nt_char"[1..] == "t_char" && "nt_int"[1..] == "t_int";
          assert StrLess("t_char", "t_int") by {
            assert "t_char"[1..] == "_char" && "t_int"[1..] == "_int";
            assert StrLess("_char", "_int") by {
              assert "_char"[1..] == "char" && "_int"[1..] == "int";
            }
          }
        }
      }
    }
  }

  lemma {:induction false} KeywordsSorted(i: nat, j: nat)
    requires i < j < |KEYWORDS|
    ensures StrLess(KEYWORDS[i].0, KEYWORDS[j].0)
    decreases j - i
  {
    KeywordsAdjacentSorted();
    if i + 1 < j {
      KeywordsSorted(i + 1, j);
      StrLessTransitive(KEYWORDS[i].0, KEYWORDS[i + 1].0, KEYWORDS[j].0);
    }
  }

  /** The type of a scanned word: the keyword it spells, or an identifier. */
  function WordType(name: string): (t: LexType)
    ensures t == Identifier || IsKeyword(t)
  {
    WordTypeFrom(name, 0)
  }

  /** The first entry from index `i` on that spells `name`. */
  function WordTypeFrom(name: string, i: nat): (t: LexType)
    requires i <= |KEYWORDS|
    ensures t == Identifier || IsKeyword(t)
    decreases |KEYWORDS| - i
  {
    if i == |KEYWORDS| then Identifier
    else if KEYWORDS[i].0 == name then KEYWORDS[i].1
    else WordTypeFrom(name, i + 1)
  }

  /** A word has a keyword type exactly when it spells an entry of the
      table, and then the type of that entry. */
  lemma WordTypeSpec(name: string)
    ensures (WordType(name) != Identifier) == (exists i :: 0 <= i < |KEYWORDS| && KEYWORDS[i].0 == name)
    ensures forall i :: 0 <= i < |KEYWORDS| && KEYWORDS[i].0 == name ==> WordType(name) == KEYWORDS[i].1
  {
    WordTypeFromSpec(name, 0);
  }

  lemma {:induction false} WordTypeFromSpec(name: string, i: nat)
    requires i <= |KEYWORDS|
    ensures (WordTypeFrom(name, i) != Identifier) == (exists j :: i <= j < |KEYWORDS| && KEYWORDS[j].0 == name)
    ensures forall j :: i <= j < |KEYWORDS| && KEYWORDS[j].0 == name ==> WordTypeFrom(name, i) == KEYWORDS[j].1
    decreases |KEYWORDS| - i
  {
    if i < |KEYWORDS| {
      WordTypeFromSpec(name, i + 1);
      if KEYWORDS[i].0 == name {
        forall j | i <= j < |KEYWORDS| && KEYWORDS[j].0 == name
          ensures WordTypeFrom(name, i) == KEYWORDS[j].1
        {
          if j != i {
            KeywordsSorted(i, j);
            StrLessIrreflexive(name);
          }
        }
      }
    }
  }

  /** `lex_scan_identifier_or_keyword` from a cursor whose current char is
      a letter: the whole run of identifier chars is consumed, the first
      `MAX_STR - 1` are kept, and the kept word is looked up. */
  function ScanWord(text: string, c: Cursor, maxStr: nat): (r: (LexType, string, Cursor))
    requires c.next >= 1 && IsAlpha(Current(text, c))
    ensures var k := IdentRun(text, c.next - 1);
            k >= 1 && c.next - 1 + k <= |text|
            && r.1 == text[c.next - 1..c.next - 1 + Kept(k, maxStr)] && r.0 == WordType(r.1)
            && r.2 == ConsumeN(text, c, k)
  {
    var p := c.next - 1;
    var k := IdentRun(text, p);
    var name := text[p..p + Kept(k, maxStr)];
    (WordType(name), name, ConsumeN(text, c, k))
  }

  // ---- numbers ------------------------------------------------------------------

  /** The length of the run of digits starting at index `i`. */
  function DigitRun(text: string, i: nat): (k: nat)
    ensures i + k <= |text| || k == 0
    decreases |text| - i
  {
    if i < |text| && IsDigit(CharValue(text[i])) then 1 + DigitRun(text, i + 1) else 0
  }

  /** The run is made of digits and stops at the first char that is not
      one, or at the end of the text. */
  lemma {:induction false} DigitRunSpec(text: string, i: nat)
    ensures forall j :: i <= j < i + DigitRun(text, i) ==> IsDigit(CharValue(text[j]))
    ensures !IsDigit(Fgetc(text, i + DigitRun(text, i)))
    decreases |text| - i
  {
    if i < |text| && IsDigit(CharValue(text[i])) {
      DigitRunSpec(text, i + 1);
    }
  }

  /** The left fold `n * 10 + d` over a run of digits (on digits only it
      is the decimal value; see `DecimalRoundTrip`). */
  function DigitsValue(s: string): int
  {
    if s == [] then 0
    else DigitsValue(s[..|s| - 1]) * 10 + (CharValue(s[|s| - 1]) - '0' as int)
  }

  /** `lex_scan_number` from a cursor whose current char is a digit. */
  function NumberAt(text: string, c: Cursor): (r: (int, Cursor))
    requires c.next >= 1 && IsDigit(Current(text, c))
    ensures var k := DigitRun(text, c.next - 1);
            k >= 1 && r.1 == ConsumeN(text, c, k)
  {
    var p := c.next - 1;
    var k := DigitRun(text, p);
    (DigitsValue(text[p..p + k]), ConsumeN(text, c, k))
  }

  /** The decimal digits of `n`, most significant first, without leading
      zeros (`"0"` for zero). */
  function Decimal(n: nat): (s: string)
    ensures |s| >= 1 && forall j :: 0 <= j < |s| ==> IsDigit(CharValue(s[j]))
  {
    var d := ['0' + (n % 10) as char];
    if n < 10 then d else Decimal(n / 10) + d
  }

  /** The number scanner reads back the value whose digits were written. */
  lemma {:induction false} DecimalRoundTrip(n: nat)
    ensures DigitsValue(Decimal(n)) == n
  {
    var s := Decimal(n);
    assert CharValue(s[|s| - 1]) - '0' as int == n % 10;
    if n >= 10 {
      assert s[..|s| - 1] == Decimal(n / 10);
      DecimalRoundTrip(n / 10);
    }
  }

  // ---- symbols --------------------------------------------------------------------

  /** `lex_scan_symbol` from a cursor whose current char is punctuation:
      the char is consumed, and for `:`, `>` and `<` an `=` right after it
      is consumed as well. A `:` without `=` and an unlisted char give
      LX_ERROR. */
  function SymbolAt(text: string, c: Cursor): (r: (LexType, Cursor))
    ensures r.1 == Consumed(text, c) || r.1 == Consumed(text, Consumed(text, c))
    ensures r.0 == Error || IsSymbol(r.0)
    ensures r.0 !in {NeSym, RemainderSym}
    ensures Current(text, c) !in {':' as int, '>' as int, '<' as int} ==> r.1 == Consumed(text, c)
    ensures Current(text, c) !in {':' as int, '>' as int, '<' as int, '=' as int, '(' as int, ')' as int,
                                  ';' as int, '*' as int, '/' as int, '+' as int, '-' as int}
            ==> r == (Error, Consumed(text, c))
  {
    var ch := Current(text, c);
    var c1 := Consumed(text, c);
    var eq := Current(text, c1) == '=' as int;
    if ch == ':' as int then (if eq then (AssignSym, Consumed(text, c1)) else (Error, c1))
    else if ch == '>' as int then (if eq then (GeSym, Consumed(text, c1)) else (GtSym, c1))
    else if ch == '<' as int then (if eq then (LeSym, Consumed(text, c1)) else (LtSym, c1))
    else (SingleSymbol(ch), c1)
  }

  /** The one-char symbols. */
  function SingleSymbol(ch: int): LexType
  {
    if ch == '=' as int then EqSym
    else if ch == '(' as int then LParenSym
    else if ch == ')' as int then RParenSym
    else if ch == ';' as int then SemicolonSym
    else if ch == '*' as int then TimesSym
    else if ch == '/' as int then DivideSym
    else if ch == '+' as int then PlusSym
    else if ch == '-' as int then MinusSym
    else Error
  }

  /** `>=`, `<=` and `:=` are single units (maximal munch), and a `:` on its
      own is an error. */
  lemma MaximalMunch(text: string, c: Cursor)
    requires c.next >= 1 && Current(text, c) in {':' as int, '>' as int, '<' as int}
    ensures var ch := Current(text, c);
            var r := SymbolAt(text, c);
            var second := Fgetc(text, c.next);
            (second == '=' as int ==>
               r.1.next == c.next + 2
               && r.0 == (if ch == ':' as int then AssignSym else if ch == '>' as int then GeSym else LeSym))
            && (second != '=' as int ==>
               r.1.next == c.next + 1
               && r.0 == (if ch == ':' as int then Error else if ch == '>' as int then GtSym else LtSym))
  {
  }

  // ---- lex_scan ----------------------------------------------------------------

  /** `lex_scan`: skip whitespace, note where the unit starts, and scan by
      the class of the first char: EOF, a letter, a digit, punctuation, or
      anything else (an error, nothing consumed). */
  function NextUnit(text: string, c: Cursor, maxStr: nat): (r: (LexUnit, Cursor))
    requires InText(text, c)
    ensures InText(text, r.1) && r.1.next >= c.next
    ensures r.0.kind !in {Eof, Error} ==> r.1.next > c.next
    ensures r.0.kind !in {NeSym, RemainderSym, CharLit}
  {
    var c1 := AfterWhitespace(text, c);
    var line, column := c1.line, c1.column - 1;
    var ch := Current(text, c1);
    if ch == EOF then
      (LexUnit(line, column, Eof, [], 0), c1)
    else if IsAlpha(ch) then
      RealChar(text, c1);
      var (t, name, c2) := ScanWord(text, c1, maxStr);
      (LexUnit(line, column, t, name, 0), c2)
    else if IsDigit(ch) then
      RealChar(text, c1);
      var (n, c2) := NumberAt(text, c1);
      (LexUnit(line, column, Number, [], n), c2)
    else if IsPunct(ch) then
      RealChar(text, c1);
      var (t, c2) := SymbolAt(text, c1);
      (LexUnit(line, column, t, [], 0), c2)
    else
      (LexUnit(line, column, Error, [], 0), c1)
  }

  /** The units the parser can read: scanned until the first EOF or error
      unit, which ends the list (the parser never moves past either). */
  function Units(text: string, c: Cursor, maxStr: nat): (us: seq<LexUnit>)
    requires InText(text, c)
    ensures |us| >= 1 && us[|us| - 1].kind in {Eof, Error}
    ensures forall i :: 0 <= i < |us| - 1 ==> us[i].kind !in {Eof, Error}
    decreases |text| + 1 - c.next
  {
    var (u, c1) := NextUnit(text, c, maxStr);
    if u.kind in {Eof, Error} then [u] else [u] + Units(text, c1, maxStr)
  }

  /** The scanner on an input that is nothing but whitespace gives EOF. */
  lemma BlankInput(text: string, maxStr: nat)
    requires forall i :: 0 <= i < |text| ==> IsWhitespace(CharValue(text[i]))
    ensures NextUnit(text, Start, maxStr).0.kind == Eof
  {
    var r := AfterWhitespace(text, Start);
    assert r.next - 1 >= |text|;
  }

  // ---- the scanner's state ------------------------------------------------------

  /** The scanner's globals: the input, how far it has been read, the line
      and column counters, and `g_current_lex_unit`. */
  class Scanner {
    const text: string
    var next: nat
    var line: nat
    var column: nat
    var unit: LexUnit

    function Cur(): Cursor
      reads this
    {
      Cursor(next, line, column)
    }

    /** `lex_set_input_function` on a file just opened, with the counters
        at line 1, column 1. */
    constructor (text: string)
      ensures this.text == text && Cur() == Start
    {
      this.text := text;
      next := 0;
      line := 1;
      column := 1;
      unit := LexUnit(0, 0, Eof, [], 0);
    }

    /** `lex_get_char` over the file reader: a peek returns the current
        char and leaves the counters alone; a consume reads the next char,
        returns it and counts it. */
    method GetChar(peek: bool) returns (ch: int)
      modifies this`next, this`line, this`column
      ensures peek ==> ch == Current(text, old(Cur())) && Cur() == Peeked(old(Cur()))
      ensures !peek ==> Cur() == Consumed(text, old(Cur())) && ch == Current(text, Cur())
    {
      if peek && next > 0 {
        ch := Fgetc(text, next - 1);
      } else {
        ch := Fgetc(text, next);
        next := next + 1;
        if !peek {
          if ch == '\n' as int {
            line := line + 1;
            column := 1;
          } else {
            column := column + 1;
          }
        }
      }
    }

    /** `lex_skip_whitespace`. */
    method SkipWhitespace()
      requires InText(text, Cur())
      modifies this`next, this`line, this`column
      ensures Cur() == AfterWhitespace(text, old(Cur()))
    {
      var ch := GetChar(true);
      while IsWhitespace(ch)
        invariant InText(text, Cur()) && next >= 1 && ch == Current(text, Cur())
        invariant AfterWhitespace(text, Cur()) == AfterWhitespace(text, old(Cur()))
        decreases |text| + 1 - next
      {
        RealChar(text, Cur());
        ch := GetChar(false);
        ch := GetChar(true);
      }
    }

    /** The search of the sorted keyword table: step past the entries that
        sort before `name`, then compare with the one reached. */
    static method LookupWord(name: string) returns (t: LexType)
      ensures t == WordType(name)
    {
      var i := 0;
      while i < |KEYWORDS| && StrLess(KEYWORDS[i].0, name)
        invariant 0 <= i <= |KEYWORDS|
        invariant forall j :: 0 <= j < i ==> StrLess(KEYWORDS[j].0, name)
      {
        i := i + 1;
      }
      if i < |KEYWORDS| && KEYWORDS[i].0 == name {
        t := KEYWORDS[i].1;
      } else {
        t := Identifier;
        forall j | 0 <= j < |KEYWORDS|
          ensures KEYWORDS[j].0 != name
        {
          if KEYWORDS[j].0 == name {
            if j < i {
              StrLessIrreflexive(name);
            } else {
              KeywordsSorted(i, j);
            }
          }
        }
      }
      WordTypeSpec(name);
    }

    /** The loop of `lex_scan_identifier_or_keyword`: consume the run of
        identifier chars, keeping the first `MAX_STR - 1` of them. */
    method ReadWord(maxStr: nat) returns (name: string, ghost k: nat)
      requires next >= 1 && IsAlpha(Current(text, Cur()))
      modifies this`next, this`line, this`column
      ensures old(next) - 1 + k <= |text| && k == IdentRun(text, old(next) - 1)
      ensures name == text[old(next) - 1..old(next) - 1 + Kept(k, maxStr)]
      ensures Cur() == ConsumeN(text, old(Cur()), k)
    {
      ghost var c0 := Cur();
      ghost var p := next - 1;
      RealChar(text, c0);
      var ch := GetChar(true);
      var i: nat := 0;
      name := [];
      var more := true;
      while more
        invariant next == p + 1 + i && p + i <= |text| && Cur() == ConsumeN(text, c0, i)
        invariant ch == Fgetc(text, p + i) && more == IsIdentChar(ch)
        invariant IdentRun(text, p) == i + IdentRun(text, p + i)
        invariant name == text[p..p + Kept(i, maxStr)]
        decreases |text| - i
      {
        IdentRunStep(text, p, i);
        name, ch := KeepChar(p, i, maxStr, name);
        i := i + 1;
        ConsumeNSnoc(text, c0, i - 1);
        more := IsIdentChar(ch);
      }
      IdentRunStep(text, p, i);
      k := i;
    }

    /** One pass of the loop of `lex_scan_identifier_or_keyword`: keep
        the current char while there is room, then read the next one. */
    method KeepChar(ghost p: nat, i: nat, maxStr: nat, name: string) returns (name': string, ch: int)
      requires next == p + 1 + i && p + i < |text|
      requires name == text[p..p + Kept(i, maxStr)]
      modifies this`next, this`line, this`column
      ensures name' == text[p..p + Kept(i + 1, maxStr)]
      ensures Cur() == Consumed(text, old(Cur())) && ch == Fgetc(text, p + i + 1)
    {
      KeptStep(text, p, i, maxStr);
      name' := name;
      if i < maxStr - 1 {
        name' := name + [text[next - 1]];
      }
      ch := GetChar(false);
    }

    /** `lex_scan_identifier_or_keyword`. */
    method ScanIdentifierOrKeyword(maxStr: nat)
      requires next >= 1 && IsAlpha(Current(text, Cur()))
      modifies this
      ensures (unit.kind, unit.name, Cur()) == ScanWord(text, old(Cur()), maxStr)
      ensures unit.line == old(unit.line) && unit.column == old(unit.column)
    {
      var name, k := ReadWord(maxStr);
      var t := LookupWord(name);
      unit := unit.(kind := t, name := name);
    }

    /** The loop of `lex_scan_number`: consume the run of digits,
        accumulating `n * 10 + digit`. */
    method ReadDigits() returns (n: int, ghost k: nat)
      requires next >= 1 && IsDigit(Current(text, Cur()))
      modifies this`next, this`line, this`column
      ensures old(next) - 1 + k <= |text| && k == DigitRun(text, old(next) - 1)
      ensures n == DigitsValue(text[old(next) - 1..old(next) - 1 + k])
      ensures Cur() == ConsumeN(text, old(Cur()), k)
    {
      ghost var c0 := Cur();
      ghost var p := next - 1;
      n := 0;
      var i: nat := 0;
      var ch := GetChar(true);
      while IsDigit(ch)
        invariant next == p + 1 + i && p + i <= |text| && Cur() == ConsumeN(text, c0, i)
        invariant ch == Current(text, Cur())
        invariant DigitRun(text, p) == i + DigitRun(text, p + i)
        invariant n == DigitsValue(text[p..p + i])
        decreases |text| - next
      {
        DigitRunStep(text, p, i);
        n, ch := AddDigit(p, i, n, ch);
        i := i + 1;
        ConsumeNSnoc(text, c0, i - 1);
      }
      DigitRunStep(text, p, i);
      k := i;
    }

    /** One pass of the loop of `lex_scan_number`: add the current digit
        to the value, then read the next char. */
    method AddDigit(ghost p: nat, i: nat, n: int, ch: int) returns (n': int, ch': int)
      requires next == p + 1 + i && p + i < |text| && ch == Fgetc(text, p + i)
      requires n == DigitsValue(text[p..p + i])
      modifies this`next, this`line, this`column
      ensures n' == DigitsValue(text[p..p + i + 1])
      ensures Cur() == Consumed(text, old(Cur())) && ch' == Current(text, Cur())
    {
      DigitsValueStep(text, p, i);
      n' := n * 10 + ch - '0' as int;
      ch' := GetChar(false);
    }

    /** `lex_scan_number`. */
    method ScanNumber()
      requires next >= 1 && IsDigit(Current(text, Cur()))
      modifies this
      ensures (unit.kind, unit.number, Cur()) == (Number, NumberAt(text, old(Cur())).0, NumberAt(text, old(Cur())).1)
      ensures unit.line == old(unit.line) && unit.column == old(unit.column)
    {
      var n, k := ReadDigits();
      unit := unit.(kind := Number, number := n);
    }

    /** `lex_scan_symbol`. */
    method ScanSymbol()
      requires next >= 1
      modifies this`next, this`line, this`column, this`unit
      ensures (unit.kind, Cur()) == SymbolAt(text, old(Cur()))
      ensures unit.line == old(unit.line) && unit.column == old(unit.column)
    {
      var t := Error;
      var ch := GetChar(true);
      var _ := GetChar(false);
      var second := GetChar(true);
      if ch == ':' as int {
        if second == '=' as int {
          t := AssignSym;
          var _ := GetChar(false);
        }
      } else if ch == '>' as int {
        t := GtSym;
        if second == '=' as int {
          t := GeSym;
          var _ := GetChar(false);
        }
      } else if ch == '<' as int {
        t := LtSym;
        if second == '=' as int {
          t := LeSym;
          var _ := GetChar(false);
        }
      } else {
        t := SingleSymbol(ch);
      }
      unit := unit.(kind := t);
    }

    /** `lex_scan`: the next unit, in `unit`. */
    method Scan(maxStr: nat)
      requires InText(text, Cur())
      modifies this
      ensures Agrees(unit, NextUnit(text, old(Cur()), maxStr).0)
      ensures Cur() == NextUnit(text, old(Cur()), maxStr).1
    {
      ghost var c0 := Cur();
      NextUnitSteps(text, c0, maxStr);
      SkipWhitespace();
      ghost var c1 := Cur();
      unit := unit.(line := line, column := column - 1);
      var ch := GetChar(true);
      if ch == EOF {
        unit := unit.(kind := Eof);
      } else if IsAlpha(ch) {
        RealChar(text, c1);
        ScanIdentifierOrKeyword(maxStr);
      } else if IsDigit(ch) {
        RealChar(text, c1);
        ScanNumber();
      } else if IsPunct(ch) {
        RealChar(text, c1);
        ScanSymbol();
      } else {
        unit := unit.(kind := Error);
      }
    }
  }

  /** The case analysis of `lex_scan`, one branch per kind of first char
      after the whitespace. */
  lemma NextUnitSteps(text: string, c: Cursor, maxStr: nat)
    requires InText(text, c)
    ensures var c1 := AfterWhitespace(text, c);
            var ch := Current(text, c1);
            var (u, c2) := NextUnit(text, c, maxStr);
            u.line == c1.line && u.column == c1.column - 1
            && (ch == EOF ==> u.kind == Eof && c2 == c1)
            && (ch != EOF && IsAlpha(ch) ==> c1.next >= 1 && (u.kind, u.name, c2) == ScanWord(text, c1, maxStr))
            && (ch != EOF && !IsAlpha(ch) && IsDigit(ch) ==> c1.next >= 1 && (u.number, c2) == NumberAt(text, c1) && u.kind == Number)
            && (ch != EOF && !IsAlpha(ch) && !IsDigit(ch) && IsPunct(ch) ==> c1.next >= 1 && (u.kind, c2) == SymbolAt(text, c1))
            && (ch != EOF && !IsAlpha(ch) && !IsDigit(ch) && !IsPunct(ch) ==> u.kind == Error && c2 == c1)
  {
  }

  /** A unit the scanner left in its buffer carries the unit's position and
      type, and the fields its type uses: the name of a word, the value of
      a number. The buffer's other fields keep what an earlier unit left. */
  predicate Agrees(buffer: LexUnit, u: LexUnit)
  {
    buffer.line == u.line && buffer.column == u.column && buffer.kind == u.kind
    && (u.kind == Identifier || IsKeyword(u.kind) ==> buffer.name == u.name)
    && (u.kind == Number ==> buffer.number == u.number)
  }

  /** The identifier run from `p`, after `i` of its chars: it goes on
      exactly when the next char is an identifier char. */
  lemma IdentRunStep(text: string, p: nat, i: nat)
    requires IdentRun(text, p) == i + IdentRun(text, p + i)
    ensures IsIdentChar(Fgetc(text, p + i)) ==> p + i < |text| && IdentRun(text, p) == i + 1 + IdentRun(text, p + i + 1)
    ensures !IsIdentChar(Fgetc(text, p + i)) ==> IdentRun(text, p) == i
  {
  }

  /** One more identifier char read: the kept name grows by it while
      there is room. */
  lemma KeptStep(text: string, p: nat, i: nat, maxStr: nat)
    requires p + i < |text|
    ensures i < maxStr - 1 ==> text[p..p + Kept(i + 1, maxStr)] == text[p..p + Kept(i, maxStr)] + [text[p + i]]
    ensures i >= maxStr - 1 ==> Kept(i + 1, maxStr) == Kept(i, maxStr)
  {
    if i < maxStr - 1 {
      assert text[p..p + i + 1] == text[p..p + i] + [text[p + i]];
    }
  }

  /** One more digit read: the value is the old one times ten plus the
      digit. */
  lemma DigitsValueStep(text: string, p: nat, i: nat)
    requires p + i < |text|
    ensures DigitsValue(text[p..p + i + 1]) == DigitsValue(text[p..p + i]) * 10 + CharValue(text[p + i]) - '0' as int
  {
    assert text[p..p + i + 1][..i] == text[p..p + i];
  }

  /** The digit run from `p`, after `i` of its chars: it goes on exactly
      when the next char is a digit. */
  lemma DigitRunStep(text: string, p: nat, i: nat)
    requires DigitRun(text, p) == i + DigitRun(text, p + i)
    ensures IsDigit(Fgetc(text, p + i)) ==> p + i < |text| && DigitRun(text, p) == i + 1 + DigitRun(text, p + i + 1)
    ensures !IsDigit(Fgetc(text, p + i)) ==> DigitRun(text, p) == i
  {
  }
}
