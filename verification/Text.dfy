/** The few string operations the address rules use, over ASCII. */
module Text {
  predicate Blank(c: char) {
    c == ' ' || 9 as char <= c <= 13 as char || 28 as char <= c <= 31 as char
  }

  function StripLeft(s: string): (r: string)
    ensures r == [] || !Blank(r[0])
    ensures forall c :: c in r ==> c in s
  {
    if s != [] && Blank(s[0]) then StripLeft(s[1..]) else s
  }

  function StripRight(s: string): (r: string)
    ensures r == [] || !Blank(r[|r| - 1])
    ensures r <= s
  {
    if s != [] && Blank(s[|s| - 1]) then StripRight(s[..|s| - 1]) else s
  }

  /** `str.strip()` */
  function Strip(s: string): (r: string)
    ensures r == [] || (!Blank(r[0]) && !Blank(r[|r| - 1]))
  {
    StripRight(StripLeft(s))
  }

  predicate Stripped(s: string) {
    s == [] || (!Blank(s[0]) && !Blank(s[|s| - 1]))
  }

  function LowerChar(c: char): (r: char)
    ensures r as int == c as int + if 'A' <= c <= 'Z' then 32 else 0
    ensures Blank(r) <==> Blank(c)
    ensures r == ' ' <==> c == ' '
  {
    if 'A' <= c <= 'Z' then (c as int + 32) as char else c
  }

  function Lower(s: string): (r: string)
    ensures |r| == |s| && forall i :: 0 <= i < |s| ==> r[i] == LowerChar(s[i])
  {
    seq(|s|, i requires 0 <= i < |s| => LowerChar(s[i]))
  }

  function TrimLeft(s: string): string {
    if s != [] && s[0] == ' ' then TrimLeft(s[1..]) else s
  }

  function TrimRight(s: string): string {
    if s != [] && s[|s| - 1] == ' ' then TrimRight(s[..|s| - 1]) else s
  }

  /** PostgreSQL's `btrim`: spaces only, where `str.strip` removes every blank. */
  function SqlTrim(s: string): string {
    TrimRight(TrimLeft(s))
  }

  lemma SqlTrimStripped(s: string)
    requires Stripped(s)
    ensures SqlTrim(s) == s == Strip(s)
  {
  }

  lemma {:induction false} StripLeftSnoc(s: string, c: char)
    ensures StripLeft(s + [c]) == if StripLeft(s) != [] then StripLeft(s) + [c] else if Blank(c) then [] else [c]
  {
    if s == [] {
      assert s + [c] == [c] && [c][1..] == [];
    } else if Blank(s[0]) {
      assert (s + [c])[1..] == s[1..] + [c];
      StripLeftSnoc(s[1..], c);
    }
  }

  lemma StripDropsBlank(s: string)
    requires s != [] && Blank(s[|s| - 1])
    ensures Strip(s[..|s| - 1]) == Strip(s)
  {
    var front, c := s[..|s| - 1], s[|s| - 1];
    assert s == front + [c];
    StripLeftSnoc(front, c);
    var left := StripLeft(front);
    if left != [] {
      assert (left + [c])[..|left|] == left;
    }
  }

  lemma {:induction false} StripTrimLeft(s: string)
    ensures StripLeft(TrimLeft(s)) == StripLeft(s)
  {
    if s != [] && s[0] == ' ' {
      StripTrimLeft(s[1..]);
    }
  }

  lemma {:induction false} StripTrimRight(s: string)
    ensures Strip(TrimRight(s)) == Strip(s)
  {
    if s != [] && s[|s| - 1] == ' ' {
      StripTrimRight(s[..|s| - 1]);
      StripDropsBlank(s);
    }
  }

  /** Trimming spaces first changes nothing about stripping blanks. */
  lemma StripSqlTrim(s: string)
    ensures Strip(SqlTrim(s)) == Strip(s)
  {
    StripTrimRight(TrimLeft(s));
    StripTrimLeft(s);
  }

  lemma {:induction false} StripLeftLower(s: string)
    ensures StripLeft(Lower(s)) == Lower(StripLeft(s))
  {
    if s != [] && Blank(s[0]) {
      assert Lower(s)[1..] == Lower(s[1..]);
      StripLeftLower(s[1..]);
    }
  }

  lemma {:induction false} StripRightLower(s: string)
    ensures StripRight(Lower(s)) == Lower(StripRight(s))
  {
    if s != [] && Blank(s[|s| - 1]) {
      assert Lower(s)[..|s| - 1] == Lower(s[..|s| - 1]);
      StripRightLower(s[..|s| - 1]);
    }
  }

  lemma StripLower(s: string)
    ensures Strip(Lower(s)) == Lower(Strip(s))
  {
    StripLeftLower(s);
    StripRightLower(StripLeft(s));
  }

  // ---------- What stripping and trimming remove ----------

  lemma {:induction false} StripLeftMeaning(s: string) returns (cut: string)
    ensures s == cut + StripLeft(s)
    ensures forall c :: c in cut ==> c == ' ' || 9 as char <= c <= 13 as char || 28 as char <= c <= 31 as char
  {
    cut := [];
    if s != [] && Blank(s[0]) {
      cut := StripLeftMeaning(s[1..]);
      cut := [s[0]] + cut;
      assert s == [s[0]] + s[1..];
    }
  }

  lemma {:induction false} StripRightMeaning(s: string) returns (cut: string)
    ensures s == StripRight(s) + cut
    ensures forall c :: c in cut ==> c == ' ' || 9 as char <= c <= 13 as char || 28 as char <= c <= 31 as char
  {
    cut := [];
    if s != [] && Blank(s[|s| - 1]) {
      cut := StripRightMeaning(s[..|s| - 1]);
      cut := cut + [s[|s| - 1]];
    }
  }

  lemma Rejoin(s: string, before: string, middle: string, rest: string, after: string)
    requires s == before + middle && middle == rest + after
    ensures s == before + rest + after
  {
  }

  lemma StripEnds(s: string, c: char)
    requires Strip(s) != [] && (c == Strip(s)[0] || c == Strip(s)[|Strip(s)| - 1])
    ensures c != ' ' && !(9 as char <= c <= 13 as char) && !(28 as char <= c <= 31 as char)
  {
  }

  /** Stripping cuts only blanks from the ends, and all of them. */
  lemma {:induction false} StripMeaning(s: string) returns (before: string, after: string)
    ensures s == before + Strip(s) + after
    ensures forall c :: c in before || c in after ==>
              c == ' ' || 9 as char <= c <= 13 as char || 28 as char <= c <= 31 as char
    ensures Strip(s) != [] ==>
              && var first, last := Strip(s)[0], Strip(s)[|Strip(s)| - 1];
              && first != ' ' && !(9 as char <= first <= 13 as char) && !(28 as char <= first <= 31 as char)
              && last != ' ' && !(9 as char <= last <= 13 as char) && !(28 as char <= last <= 31 as char)
  {
    before := StripLeftMeaning(s);
    var middle := StripLeft(s);
    after := StripRightMeaning(middle);
    Rejoin(s, before, middle, StripRight(middle), after);
    if Strip(s) != [] {
      StripEnds(s, Strip(s)[0]);
      StripEnds(s, Strip(s)[|Strip(s)| - 1]);
    }
  }

  lemma {:induction false} TrimLeftMeaning(s: string) returns (cut: string)
    ensures s == cut + TrimLeft(s) && forall c :: c in cut ==> c == ' '
    ensures TrimLeft(s) == [] || TrimLeft(s)[0] != ' '
  {
    cut := [];
    if s != [] && s[0] == ' ' {
      cut := TrimLeftMeaning(s[1..]);
      cut := [s[0]] + cut;
      assert s == [s[0]] + s[1..];
    }
  }

  lemma {:induction false} TrimRightMeaning(s: string) returns (cut: string)
    ensures s == TrimRight(s) + cut && forall c :: c in cut ==> c == ' '
    ensures TrimRight(s) == [] || TrimRight(s)[|TrimRight(s)| - 1] != ' '
  {
    cut := [];
    if s != [] && s[|s| - 1] == ' ' {
      cut := TrimRightMeaning(s[..|s| - 1]);
      cut := cut + [s[|s| - 1]];
    }
  }

  /** The database's trim cuts only spaces from the ends, and all of them. */
  lemma {:induction false} TrimMeaning(s: string) returns (before: string, after: string)
    ensures s == before + SqlTrim(s) + after && forall c :: c in before || c in after ==> c == ' '
    ensures SqlTrim(s) == [] || (SqlTrim(s)[0] != ' ' && SqlTrim(s)[|SqlTrim(s)| - 1] != ' ')
  {
    before := TrimLeftMeaning(s);
    var rest := TrimLeft(s);
    after := TrimRightMeaning(rest);
    Rejoin(s, before, rest, TrimRight(rest), after);
    if SqlTrim(s) != [] {
      assert rest[0] == SqlTrim(s)[0];
    }
  }
}
