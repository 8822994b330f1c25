/** What any map text says to the character map, however it is laid out: lines of words,
    with any blank between them and any of the three line ends. */
module CharacterText {
  import opened Decimal
  import opened CharacterMap

  // ---- tokens -----------------------------------------------------------------------------

  /** The letters that stand for a character behind a backslash, and its code. */
  const NAMED: map<char, int> := map['a' := 7, 'b' := 8, 'f' := 12, 'n' := 10, 'r' := 13, 's' := 32, 't' := 9, 'v' := 11]

  /** A token is the character its escape names, whatever follows the letter; behind a
      backslash that begins no escape it is the backslash; one character is itself. */
  lemma TokenNames(c: char, more: string)
    ensures c in NAMED ==> TokenValue(['\\', c] + more) == NAMED[c]
    ensures c !in NAMED && c != 'x' && !('0' <= c <= '7') ==> TokenValue(['\\', c] + more) == 92
    ensures TokenValue([c]) == c as int && TokenValue("") == -1
  {
    var s := ['\\', c] + more;
    hide BaseValue, Atoi;
    if |s| > 4 { assert s[..4][1] == c; }
  }

  /** Any other token of up to four characters that is marked by nothing is read as the C
      library reads a number. */
  lemma TokenCounts(s: string)
    requires 2 <= |s| <= 4 && s[0] != '%' && s[0] != '\\' && !(s[0] == '0' && s[1] == 'x')
    ensures TokenValue(s) == Atoi(s)
  {
    hide BaseValue, Atoi;
  }

  const UPPER := "0123456789ABCDEF"
  const LOWER := "0123456789abcdef"

  /** A digit has its value in either case, and nothing else is one. */
  lemma EitherCase(k: nat, c: char)
    requires k < 16
    ensures |UPPER| == |LOWER| == 16 && DigitValue(UPPER[k]) == k && DigitValue(LOWER[k]) == k
    ensures DigitValue(c) == -1 <==> c !in UPPER && c !in LOWER
  {
    Rows(k);
    if DigitValue(c) >= 0 { Rows(DigitValue(c)); }
    forall i: nat | i < 16 && (UPPER[i] == c || LOWER[i] == c) ensures DigitValue(c) >= 0 { Rows(i); }
    hide UPPER, LOWER;
  }

  lemma Rows(k: nat)
    requires k < 16
    ensures |UPPER| == |LOWER| == 16
    ensures UPPER[k] == (if k < 10 then '0' + k as char else 'A' + (k - 10) as char)
    ensures LOWER[k] == (if k < 10 then '0' + k as char else 'a' + (k - 10) as char)
  {}

  /** A digit more, place by place. */
  lemma OneMoreDigit(s: string, c: char, base: nat)
    ensures BaseValue("", base) == 0
    ensures BaseValue(s + [c], base) ==
            if BaseValue(s, base) >= 0 && 0 <= DigitValue(c) < base then BaseValue(s, base) * base + DigitValue(c) else -1
  {
    hide DigitValue;
    assert (s + [c])[..|s|] == s;
  }

  // ---- lines ------------------------------------------------------------------------------

  /** A word and the blank before it; and a line of them, the blank behind and its end. */
  datatype Gapped = Gapped(gap: string, word: string)
  datatype Row = Row(words: seq<Gapped>, behind: string, end: string)

  predicate Blank(s: string) {
    forall i :: 0 <= i < |s| ==> s[i] == ' ' || s[i] == 9 as char
  }

  /** No blank, line end or NUL is in a word. */
  predicate Solid(s: string) {
    s != "" && forall i :: 0 <= i < |s| ==> s[i] as int !in {0, 9, 10, 13, 32}
  }

  const LF: string := [10 as char]
  const CR: string := [13 as char]

  /** Words are apart, and the line ends with a line feed, a carriage return, or both; the
      last one may end with the text. */
  predicate RowOk(r: Row) {
    Blank(r.behind) && (r.end == LF || r.end == CR || r.end == CR + LF || r.end == "") && WordsOk(r.words, true)
  }

  predicate WordsOk(ws: seq<Gapped>, first: bool) {
    ws == [] || (Blank(ws[0].gap) && Solid(ws[0].word) && (first || ws[0].gap != "") && WordsOk(ws[1..], false))
  }

  function WordsText(ws: seq<Gapped>, rest: string): (r: string)
    ensures |r| >= |rest|
  {
    if ws == [] then rest else ws[0].gap + (ws[0].word + WordsText(ws[1..], rest))
  }

  function RowsText(rs: seq<Row>): string {
    if rs == [] then "" else WordsText(rs[0].words, rs[0].behind + (rs[0].end + RowsText(rs[1..])))
  }

  /** Every line is as it should be, and a carriage return that ends one is not followed by
      a line feed that ends the next: the two would end one line. */
  predicate RowsOk(rs: seq<Row>) {
    rs == [] || (RowOk(rs[0]) && Apart(rs[0].end, RowsText(rs[1..])) && (rs[0].end == "" ==> |rs| == 1) && RowsOk(rs[1..]))
  }

  predicate Apart(end: string, rest: string) {
    end == CR ==> rest == "" || rest[0] != 10 as char
  }

  function Words(ws: seq<Gapped>): (r: seq<string>)
    ensures |r| == |ws|
  {
    if ws == [] then [] else [ws[0].word] + Words(ws[1..])
  }

  // ---- reading them -----------------------------------------------------------------------

  ghost predicate Sits(text: string, p: nat, piece: string) {
    p + |piece| <= |text| && text[p..p + |piece|] == piece
  }

  lemma Parts(text: string, p: nat, a: string, b: string)
    requires Sits(text, p, a + b)
    ensures Sits(text, p, a) && Sits(text, p + |a|, b)
  {
    assert text[p..p + |a|] == (a + b)[..|a|] == a;
    assert text[p + |a|..p + |a + b|] == (a + b)[|a|..] == b;
  }

  lemma Each(text: string, p: nat, piece: string, k: nat)
    requires Sits(text, p, piece) && k < |piece|
    ensures Here(text, p + k) == piece[k] && p + k < |text|
  {
    assert text[p..p + |piece|][k] == text[p + k];
  }

  lemma {:induction false} GapPassed(text: string, p: nat, gap: string)
    requires Sits(text, p, gap) && Blank(gap)
    ensures Tokens(text, p) == Tokens(text, p + |gap|)
    decreases |gap|
  {
    if gap != "" {
      Each(text, p, gap, 0);
      assert gap == [gap[0]] + gap[1..];
      Parts(text, p, [gap[0]], gap[1..]);
      GapPassed(text, p + 1, gap[1..]);
    }
  }

  lemma WordRead(text: string, p: nat, word: string)
    requires Sits(text, p, word) && Solid(word) && Breaks(Here(text, p + |word|))
    ensures TokenEnd(text, p) == p + |word| && !Breaks(Here(text, p)) && text[p..TokenEnd(text, p)] == word
  {
    forall i | p <= i < p + |word| ensures !Breaks(text[i]) { Each(text, p, word, i - p); }
    TokenEndsAt(text, p, p + |word|);
  }

  /** The words of a line, up to its end. */
  lemma {:induction false} WordsRead(text: string, p: nat, ws: seq<Gapped>, behind: string, rest: string, first: bool)
    requires Sits(text, p, WordsText(ws, behind + rest)) && WordsOk(ws, first) && Blank(behind)
    requires Ends(Here(text, p + |WordsText(ws, behind + rest)| - |rest|))
    ensures Tokens(text, p) == (Words(ws), p + |WordsText(ws, behind + rest)| - |rest|)
    ensures Sits(text, p + |WordsText(ws, behind + rest)| - |rest|, rest)
    decreases |ws|
  {
    hide Sits, Here, TokenEnd, Solid, Blank, Ends;
    if ws == [] {
      Parts(text, p, behind, rest);
      GapPassed(text, p, behind);
      LineEnd(text, p + |behind|);
    } else {
      var more := WordsText(ws[1..], behind + rest);
      Parts(text, p, ws[0].gap, ws[0].word + more);
      GapPassed(text, p, ws[0].gap);
      var q := p + |ws[0].gap|;
      Parts(text, q, ws[0].word, more);
      MoreStarts(text, q + |ws[0].word|, ws[1..], behind, rest);
      WordRead(text, q, ws[0].word);
      WordsRead(text, q + |ws[0].word|, ws[1..], behind, rest, false);
      OneToken(text, q, ws[0].word);
    }
  }

  lemma LineEnd(text: string, p: nat)
    requires p <= |text| && Ends(Here(text, p))
    ensures Tokens(text, p) == ([], p)
  {}

  lemma OneToken(text: string, q: nat, word: string)
    requires q <= |text| && !Breaks(Here(text, q)) && TokenEnd(text, q) == q + |word| <= |text| && text[q..q + |word|] == word
    ensures Tokens(text, q) == ([word] + Tokens(text, q + |word|).0, Tokens(text, q + |word|).1)
  {}

  /** Behind a word there is a blank or the line's end. */
  lemma MoreStarts(text: string, p: nat, ws: seq<Gapped>, behind: string, rest: string)
    requires WordsOk(ws, false) && Blank(behind) && Sits(text, p, WordsText(ws, behind + rest))
    requires Ends(Here(text, p + |WordsText(ws, behind + rest)| - |rest|))
    ensures Breaks(Here(text, p))
  {
    hide Sits, Here, WordsText, WordsOk, Blank;
    var more := WordsText(ws, behind + rest);
    BlankNext(ws, behind, rest);
    if ws != [] || behind != "" { Each(text, p, more, 0); }
  }

  lemma BlankNext(ws: seq<Gapped>, behind: string, rest: string)
    requires WordsOk(ws, false) && Blank(behind)
    ensures var more := WordsText(ws, behind + rest);
            if ws == [] && behind == "" then more == rest else more != "" && Breaks(more[0])
  {
    if ws == [] && behind == "" { assert behind + rest == rest; }
  }

  function AllApplied(t: Table, rs: seq<Row>): (r: Table)
    requires |t| == 256
    ensures |r| == 256
    decreases |rs|
  {
    if rs == [] then t else AllApplied(ApplyLine(t, Words(rs[0].words)), rs[1..])
  }

  /** A line's end, and where the next one begins. */
  lemma EndRead(text: string, q: nat, end: string, rest: string)
    requires Sits(text, q, end + rest) && (end == LF || end == CR || end == CR + LF) && Apart(end, rest)
    requires q + |end + rest| == |text|
    ensures Ends(Here(text, q)) && Here(text, q) != '\0' && NextLine(text, q) == q + |end| && Sits(text, q + |end|, rest)
  {
    hide Sits, Here;
    Parts(text, q, end, rest);
    Each(text, q, end, 0);
    if end == CR + LF {
      Each(text, q, end, 1);
    } else if rest != "" {
      Each(text, q + 1, rest, 0);
    } else {
      AtTheEnd(text);
    }
  }

  lemma AtTheEnd(text: string)
    ensures Here(text, |text|) == '\0'
  {}

  lemma Tail(text: string, p: nat, ws: seq<Gapped>, behind: string, rest: string)
    requires Sits(text, p, WordsText(ws, behind + rest))
    ensures Sits(text, p + |WordsText(ws, behind + rest)| - |rest|, rest)
    decreases |ws|
  {
    hide Sits;
    if ws == [] {
      Parts(text, p, behind, rest);
    } else {
      var more := WordsText(ws[1..], behind + rest);
      Parts(text, p, ws[0].gap, ws[0].word + more);
      Parts(text, p + |ws[0].gap|, ws[0].word, more);
      Tail(text, p + |ws[0].gap| + |ws[0].word|, ws[1..], behind, rest);
    }
  }

  lemma RowRead(text: string, p: nat, r: Row, rest: string)
    requires RowOk(r) && r.end != "" && Apart(r.end, rest)
    requires Sits(text, p, WordsText(r.words, r.behind + (r.end + rest))) && p + |WordsText(r.words, r.behind + (r.end + rest))| == |text|
    ensures var (toks, q) := Tokens(text, p);
            && toks == Words(r.words) && Here(text, q) != '\0' && Here(text, p) != '\0'
            && NextLine(text, q) == |text| - |rest| && Sits(text, NextLine(text, q), rest)
  {
    hide Words, Sits, Here, Ends, NextLine, WordsText, Apart, WordsOk;
    var all := WordsText(r.words, r.behind + (r.end + rest));
    var q := p + |all| - |r.end + rest|;
    Tail(text, p, r.words, r.behind, r.end + rest);
    EndRead(text, q, r.end, rest);
    WordsRead(text, p, r.words, r.behind, r.end + rest, true);
    NotTheEnd(r, rest);
    Each(text, p, all, 0);
  }

  lemma NotTheEnd(r: Row, rest: string)
    requires RowOk(r) && r.end != ""
    ensures var all := WordsText(r.words, r.behind + (r.end + rest)); all != "" && all[0] != '\0'
  {}

  /** A last line that ends with the text. */
  lemma LastRead(text: string, p: nat, r: Row, t: Table)
    requires |t| == 256 && RowOk(r) && r.end == ""
    requires Sits(text, p, WordsText(r.words, r.behind + "")) && p + |WordsText(r.words, r.behind + "")| == |text|
    ensures BuildFrom(text, p, t) == ApplyLine(t, Words(r.words))
  {
    hide Sits, WordsOk, TokenValue;
    AtTheEnd(text);
    WordsRead(text, p, r.words, r.behind, "", true);
    if Here(text, p) == '\0' { LineEnd(text, p); }
  }

  lemma {:induction false} RowsRead(text: string, p: nat, rs: seq<Row>, t: Table)
    requires |t| == 256 && RowsOk(rs) && Sits(text, p, RowsText(rs)) && p + |RowsText(rs)| == |text|
    ensures BuildFrom(text, p, t) == AllApplied(t, rs)
    decreases |rs|
  {
    hide Tokens, ApplyLine, Words, WordsText, Sits, RowOk, NextLine, Apart, Here;
    if rs == [] {
      AtTheEnd(text);
    } else if rs[0].end == "" {
      assert "" + RowsText(rs[1..]) == "";
      LastRead(text, p, rs[0], t);
    } else {
      RowRead(text, p, rs[0], RowsText(rs[1..]));
      RowsRead(text, NextLine(text, Tokens(text, p).1), rs[1..], ApplyLine(t, Words(rs[0].words)));
    }
  }

  // ---- what they say ------------------------------------------------------------------------

  /** Row i is about byte b. */
  predicate About(rs: seq<Row>, i: nat, b: int)
    requires i < |rs|
  {
    rs[i].words != [] && TokenValue(rs[i].words[0].word) == b
  }

  /** What the last line about a byte makes of it: its second word's byte; without one, the
      byte is dropped. A byte no line is about stays itself. */
  ghost predicate Says(rs: seq<Row>, b: int, v: int) {
    || (v == b && forall i :: 0 <= i < |rs| ==> !About(rs, i, b))
    || exists i :: 0 <= i < |rs| && About(rs, i, b) && (forall j :: i < j < |rs| ==> !About(rs, j, b))
                   && v == if |rs[i].words| == 1 then -1 else TokenValue(rs[i].words[1].word)
  }

  lemma {:induction false} AppliedSays(rs: seq<Row>, t: Table, b: int)
    requires |t| == 256 && 0 <= b < 256
    ensures (AllApplied(t, rs)[b] == t[b] && forall i :: 0 <= i < |rs| ==> !About(rs, i, b))
         || exists i :: 0 <= i < |rs| && About(rs, i, b) && (forall j :: i < j < |rs| ==> !About(rs, j, b))
                   && AllApplied(t, rs)[b] == if |rs[i].words| == 1 then -1 else TokenValue(rs[i].words[1].word)
    decreases |rs|
  {
    hide TokenValue;
    if rs != [] {
      var t1, more := ApplyLine(t, Words(rs[0].words)), rs[1..];
      AppliedSays(more, t1, b);
      assert forall i :: 0 <= i < |more| ==> (About(more, i, b) <==> About(rs, i + 1, b));
      OneApplied(rs, t, b);
      if forall i :: 0 <= i < |more| ==> !About(more, i, b) {
        assert forall i :: 1 <= i < |rs| ==> !About(rs, i, b) by {
          forall i | 1 <= i < |rs| ensures !About(rs, i, b) { assert !About(more, i - 1, b); }
        }
      } else {
        var i :| 0 <= i < |more| && About(more, i, b) && (forall j :: i < j < |more| ==> !About(more, j, b))
                   && AllApplied(t1, more)[b] == if |more[i].words| == 1 then -1 else TokenValue(more[i].words[1].word);
        assert About(rs, i + 1, b);
        forall j | i + 1 < j < |rs| ensures !About(rs, j, b) { assert !About(more, j - 1, b); }
      }
    }
  }

  lemma OneApplied(rs: seq<Row>, t: Table, b: int)
    requires rs != [] && |t| == 256 && 0 <= b < 256
    ensures ApplyLine(t, Words(rs[0].words))[b] ==
            if About(rs, 0, b) then (if |rs[0].words| == 1 then -1 else TokenValue(rs[0].words[1].word)) else t[b]
  {
    hide TokenValue;
    if |rs[0].words| > 1 { assert Words(rs[0].words)[1] == Words(rs[0].words[1..])[0]; }
  }

  /** Whatever the layout, the text builds the table in which each byte becomes what the
      last line about it says. */
  lemma TextBuilds(rs: seq<Row>, b: int)
    requires RowsOk(rs) && 0 <= b < 256
    ensures Says(rs, b, Build(RowsText(rs))[b])
  {
    hide BuildFrom, AllApplied, RowsOk, TokenValue;
    var text := RowsText(rs);
    assert Sits(text, 0, text);
    RowsRead(text, 0, rs, Identity());
    AppliedSays(rs, Identity(), b);
  }

  // ---- what a table does ----------------------------------------------------------------------

  /** A string goes through byte by byte, in order: each becomes one byte, the low eight bits
      of what it is mapped to, or nothing if that is negative. */
  lemma {:induction false} TranslateJoins(t: Table, a: string, b: string)
    requires |t| == 256 && Bytes(a) && Bytes(b)
    ensures Bytes(a + b) && Translate(t, a + b) == Translate(t, a) + Translate(t, b)
    decreases |b|
  {
    if b == "" {
      assert a + b == a;
    } else {
      var n := |b| - 1;
      assert (a + b)[..|a + b| - 1] == a + b[..n] && (a + b)[|a + b| - 1] == b[n];
      TranslateJoins(t, a, b[..n]);
    }
  }

  lemma TranslateOne(t: Table, c: char)
    requires |t| == 256 && (c as int) < 256
    ensures Translate(t, [c]) == if t[c as int] < 0 then "" else [(t[c as int] % 256) as char]
  {
    assert [c][..0] == "";
  }

  const CAPITALS := "ABCDEFGHIJKLMNOPQRSTUVWXYZ"
  const THIRTEEN_ON := "NOPQRSTUVWXYZABCDEFGHIJKLM"

  lemma Capital(i: nat)
    requires i < 26
    ensures |CAPITALS| == |THIRTEEN_ON| == 26 && CAPITALS[i] == 'A' + i as char && THIRTEEN_ON[i] == 'A' + ((i + 13) % 26) as char
  {}

  /** The ROT13 table: a letter becomes the one thirteen places on, in its own case, and
      whatever is no letter stays. */
  lemma RotIs(i: nat, a: int, b: int, c: int)
    requires i < |CAPITALS| && i < |THIRTEEN_ON| && CAPITALS[i] as int == a && THIRTEEN_ON[i] as int == b && 0 <= c < 256
    ensures 0 <= a < 200
    ensures var t := Build(LinesText(RotLines(0)));
            t[a] == b && t[a + 32] == b + 32 && (!(65 <= c < 91) && !(97 <= c < 123) ==> t[c] == c)
  {
    assert i < 26 by { assert |CAPITALS| == 26; }
    hide CAPITALS, THIRTEEN_ON, Build, RotLines, Turned;
    Capital(i);
    RotTable();
    TurnedAt(65 + i);
    TurnedAt(97 + i);
    TurnedAt(c);
  }
}
