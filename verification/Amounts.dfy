/**
 Reading printed amounts: the receipt parser's normaliser and the bank import's, and exactly which printed
 formats each of them reads back as the number that was printed.
 */
module Amounts {
  import opened Core

  // ---------------------------------------------------------------- Python's string operations

  function StripLeft(s: string): string {
    if s != [] && IsSpace(s[0]) then StripLeft(s[1..]) else s
  }

  function StripRight(s: string): string {
    if s != [] && IsSpace(s[|s| - 1]) then StripRight(s[..|s| - 1]) else s
  }

  function Strip(s: string): string { StripRight(StripLeft(s)) }

  /** `s.replace(c, "")`. */
  function Remove(s: string, c: char): string {
    if s == [] then [] else Remove(s[..|s| - 1], c) + if s[|s| - 1] == c then [] else [s[|s| - 1]]
  }

  /** `s.replace(c, d)`. */
  function Swap(s: string, c: char, d: char): string {
    seq(|s|, i requires 0 <= i < |s| => if s[i] == c then d else s[i])
  }

  /** `s.rfind(c)`. */
  function LastIndex(s: string, c: char): (i: int)
    ensures -1 <= i < |s|
    ensures forall j :: i < j < |s| ==> s[j] != c
    ensures i >= 0 ==> s[i] == c
  {
    if s == [] then -1
    else if s[|s| - 1] == c then |s| - 1
    else LastIndex(s[..|s| - 1], c)
  }

  /** `s.split(c)[-1]`. */
  function Tail(s: string, c: char): string { s[LastIndex(s, c) + 1..] }

  function Squeezed(token: string): string { Remove(Remove(Strip(token), ' '), '\U{00A0}') }

  /** The receipt parser's `_normalize_amount`. */
  function NormalizeReceipt(token: string): string { ReceiptMarks(Squeezed(token)) }

  function ReceiptMarks(text: string): string {
    if ',' in text && '.' in text then
      if LastIndex(text, ',') > LastIndex(text, '.') then Swap(Remove(text, '.'), ',', '.')
      else Remove(text, ',')
    else if ',' in text then
      if |Tail(text, ',')| <= 2 then Swap(text, ',', '.') else Remove(text, ',')
    else text
  }

  /** The bank row's `normalize_amount`, on strings. */
  function NormalizeBank(value: string): string { BankMarks(Squeezed(value)) }

  function BankMarks(text: string): string {
    if ',' in text && '.' in text then Swap(Remove(text, '.'), ',', '.')
    else if ',' in text then Swap(text, ',', '.')
    else text
  }

  // ---------------------------------------------------------------- printing

  predicate Digits(s: string) { forall i :: 0 <= i < |s| ==> '0' <= s[i] <= '9' }

  /** Groups of three from the right. */
  function Grouped(whole: string, separator: char): string {
    if |whole| <= 3 then whole
    else Grouped(whole[..|whole| - 3], separator) + [separator] + whole[|whole| - 3..]
  }

  /** An amount and the way it is printed; without decimals there is no mark. */
  datatype Amount = Amount(negative: bool, whole: string, group: Option<char>, mark: char, fraction: string)

  predicate Printable(a: Amount) {
    && a.whole != [] && Digits(a.whole) && Digits(a.fraction)
    && a.mark in {'.', ','} && a.group in {None, Some('.'), Some(','), Some(' '), Some('\U{00A0}')}
    && a.group != Some(a.mark)
  }

  function Whole(a: Amount): string {
    (if a.negative then "-" else "") + if a.group.Some? then Grouped(a.whole, a.group.value) else a.whole
  }

  function Printed(a: Amount): string {
    Whole(a) + if a.fraction == [] then [] else [a.mark] + a.fraction
  }

  /** The same number as a plain decimal string. */
  function Plain(a: Amount): string { Printed(a.(group := None, mark := '.')) }

  // ---------------------------------------------------------------- the string operations on printed text

  lemma {:induction false} StripLeftPadding(padding: string, s: string)
    requires AllSpace(padding) && (s == [] || !IsSpace(s[0]))
    ensures StripLeft(padding + s) == s
  {
    if padding == [] {
      assert padding + s == s;
    } else {
      StripLeftPadding(padding[1..], s);
      assert (padding + s)[1..] == padding[1..] + s;
    }
  }

  lemma {:induction false} StripRightPadding(s: string, padding: string)
    requires AllSpace(padding) && (s == [] || !IsSpace(s[|s| - 1]))
    ensures StripRight(s + padding) == s
  {
    if padding == [] {
      assert s + padding == s;
    } else {
      StripRightPadding(s, padding[..|padding| - 1]);
      assert (s + padding)[..|s + padding| - 1] == s + padding[..|padding| - 1];
    }
  }

  lemma {:induction false} RemoveConcat(xs: string, ys: string, c: char)
    ensures Remove(xs + ys, c) == Remove(xs, c) + Remove(ys, c)
  {
    if ys == [] {
      assert xs + ys == xs;
    } else {
      RemoveConcat(xs, ys[..|ys| - 1], c);
      assert (xs + ys)[..|xs + ys| - 1] == xs + ys[..|ys| - 1];
    }
  }

  lemma {:induction false} RemoveAbsent(s: string, c: char)
    requires c !in s
    ensures Remove(s, c) == s
  {
    if s != [] { RemoveAbsent(s[..|s| - 1], c); }
  }

  lemma SwapAbsent(s: string, c: char, d: char)
    requires c !in s
    ensures Swap(s, c, d) == s
  {
  }

  lemma SwapConcat(xs: string, ys: string, c: char, d: char)
    ensures Swap(xs + ys, c, d) == Swap(xs, c, d) + Swap(ys, c, d)
  {
  }

  lemma DigitsHold(s: string, c: char)
    requires Digits(s) && !('0' <= c <= '9')
    ensures c !in s
  {
  }

  /** Digits and separators, no separator in a short number, a digit at either end. */
  lemma {:induction false} GroupedShape(whole: string, separator: char)
    requires whole != [] && Digits(whole) && !('0' <= separator <= '9')
    ensures var g := Grouped(whole, separator);
            && |g| >= |whole| && (|g| == |whole| <==> |whole| <= 3)
            && '0' <= g[0] <= '9' && '0' <= g[|g| - 1] <= '9'
            && (separator in g <==> |whole| > 3)
            && forall i :: 0 <= i < |g| ==> '0' <= g[i] <= '9' || g[i] == separator
  {
    if |whole| > 3 {
      var n := |whole| - 3;
      var front, g := Grouped(whole[..n], separator), Grouped(whole, separator);
      GroupedShape(whole[..n], separator);
      assert g == front + [separator] + whole[n..];
      assert g[|front|] == separator;
      forall i | 0 <= i < |g| ensures '0' <= g[i] <= '9' || g[i] == separator {
        if i > |front| { assert g[i] == whole[n..][i - |front| - 1]; }
      }
    }
  }

  lemma RemoveAround(front: string, c: char, back: string)
    requires c !in back
    ensures Remove(front + [c] + back, c) == Remove(front, c) + back
  {
    RemoveConcat(front + [c], back, c);
    RemoveAbsent(back, c);
    assert Remove(front + [c], c) == Remove(front, c) by {
      assert (front + [c])[..|front|] == front;
    }
  }

  lemma {:induction false} UngroupedByRemove(whole: string, separator: char)
    requires Digits(whole) && !('0' <= separator <= '9')
    ensures Remove(Grouped(whole, separator), separator) == whole
  {
    if |whole| <= 3 {
      DigitsHold(whole, separator);
      RemoveAbsent(whole, separator);
    } else {
      var n := |whole| - 3;
      var front := Grouped(whole[..n], separator);
      UngroupedByRemove(whole[..n], separator);
      RemoveAround(front, separator, whole[n..]);
      assert whole[..n] + whole[n..] == whole;
    }
  }

  lemma {:induction false} RegroupedBySwap(whole: string, c: char, d: char)
    requires Digits(whole) && !('0' <= c <= '9')
    ensures Swap(Grouped(whole, c), c, d) == Grouped(whole, d)
  {
    if |whole| <= 3 {
      DigitsHold(whole, c);
      SwapAbsent(whole, c, d);
    } else {
      var n := |whole| - 3;
      RegroupedBySwap(whole[..n], c, d);
      SwapConcat(Grouped(whole[..n], c) + [c], whole[n..], c, d);
      SwapConcat(Grouped(whole[..n], c), [c], c, d);
      DigitsHold(whole[n..], c);
      SwapAbsent(whole[n..], c, d);
      assert Swap([c], c, d) == [d];
    }
  }

  lemma LastIndexAt(s: string, c: char, i: nat)
    requires i < |s| && s[i] == c && c !in s[i + 1..]
    ensures LastIndex(s, c) == i
  {
    forall j | i < j < |s| ensures s[j] != c {
      assert s[j] == s[i + 1..][j - i - 1];
    }
  }

  lemma LastIndexIs(front: string, c: char, back: string)
    requires c !in back
    ensures LastIndex(front + [c] + back, c) == |front|
    ensures Tail(front + [c] + back, c) == back
  {
    var text := front + [c] + back;
    assert text[|front| + 1..] == back;
    LastIndexAt(text, c, |front|);
  }

  /** The last group of a grouped number has three digits. */
  lemma LastGroup(sign: string, whole: string, separator: char)
    requires |whole| > 3 && Digits(whole) && !('0' <= separator <= '9')
    ensures |Tail(sign + Grouped(whole, separator), separator)| == 3
  {
    var n := |whole| - 3;
    var front := sign + Grouped(whole[..n], separator);
    assert sign + Grouped(whole, separator) == front + [separator] + whole[n..];
    DigitsHold(whole[n..], separator);
    LastIndexIs(front, separator, whole[n..]);
  }

  // ---------------------------------------------------------------- squeezing

  /** The amount without grouping by spaces, nor any grouping that prints no separator. */
  function Compact(a: Amount): Amount {
    if a.group in {Some(' '), Some('\U{00A0}')} || |a.whole| <= 3 then a.(group := None) else a
  }

  /** The characters of a printed amount. */
  lemma PrintedCharacters(a: Amount)
    requires Printable(a)
    ensures var s := Printed(a);
            && s != [] && !IsSpace(s[0]) && !IsSpace(s[|s| - 1])
            && forall c :: c in s ==>
                '0' <= c <= '9' || c == '-' || a.group == Some(c) || (c == a.mark && a.fraction != [])
  {
    if a.group.Some? { GroupedShape(a.whole, a.group.value); }
  }

  lemma RemoveSeparator(a: Amount, c: char)
    requires Printable(a) && c in {' ', '\U{00A0}', '.', ','} && !(c == a.mark && a.fraction != [])
    ensures Remove(Printed(a), c) == Printed(if a.group == Some(c) then a.(group := None) else a)
  {
    PrintedCharacters(a);
    if a.group == Some(c) {
      var sign := if a.negative then "-" else "";
      var rest := if a.fraction == [] then [] else [a.mark] + a.fraction;
      RemoveConcat(Whole(a), rest, c);
      RemoveConcat(sign, Grouped(a.whole, c), c);
      UngroupedByRemove(a.whole, c);
      DigitsHold(a.fraction, c);
      RemoveAbsent(sign, c);
      RemoveAbsent(rest, c);
    } else {
      RemoveAbsent(Printed(a), c);
    }
  }

  lemma StripPadding(before: string, s: string, after: string)
    requires AllSpace(before) && AllSpace(after)
    requires s != [] && !IsSpace(s[0]) && !IsSpace(s[|s| - 1])
    ensures Strip(before + s + after) == s
  {
    assert before + s + after == before + (s + after);
    assert (s + after)[0] == s[0];
    StripLeftPadding(before, s + after);
    StripRightPadding(s, after);
  }

  lemma ShortIsUngrouped(a: Amount)
    requires |a.whole| <= 3
    ensures Printed(a) == Printed(a.(group := None))
  {
  }

  lemma SpacesGo(a: Amount)
    requires Printable(a)
    ensures Remove(Remove(Printed(a), ' '), '\U{00A0}') == Printed(Compact(a))
  {
    var b := if a.group == Some(' ') then a.(group := None) else a;
    RemoveSeparator(a, ' ');
    RemoveSeparator(b, '\U{00A0}');
    if |a.whole| <= 3 { ShortIsUngrouped(b); }
  }

  lemma PaddingGoes(before: string, a: Amount, after: string)
    requires Printable(a) && AllSpace(before) && AllSpace(after)
    ensures Squeezed(before + Printed(a) + after) == Printed(Compact(a))
  {
    PrintedCharacters(a);
    StripPadding(before, Printed(a), after);
    SpacesGo(a);
  }

  // ---------------------------------------------------------------- the round trips

  /** What the receipt parser reads correctly: a comma followed by more than two digits counts as a group
      unless dots show otherwise, and a lone dot always counts as the decimal mark. */
  predicate ReceiptReads(a: Amount) {
    if a.fraction == [] then a.group == Some('.') ==> |a.whole| <= 3
    else a.mark == ',' && |a.fraction| > 2 ==> a.group == Some('.') && |a.whole| > 3
  }

  /** What the bank import reads correctly: anything but comma groups, and dot groups only with decimals. */
  predicate BankReads(a: Amount) {
    |a.whole| > 3 ==> a.group != Some(',') && (a.group == Some('.') ==> a.fraction != [])
  }

  /** Which marks occur in a squeezed amount. */
  lemma MarksIn(a: Amount, c: char)
    requires Printable(a) && c in {'.', ','}
    ensures c in Printed(a) <==> (a.group == Some(c) && |a.whole| > 3) || (a.mark == c && a.fraction != [])
  {
    PrintedCharacters(a);
    if a.group.Some? { GroupedShape(a.whole, a.group.value); }
    DigitsHold(a.whole, c);
    DigitsHold(a.fraction, c);
    if a.mark == c && a.fraction != [] { assert Printed(a)[|Whole(a)|] == c; }
  }

  lemma CommaMarkBecomesDot(a: Amount)
    requires Printable(a) && a.group == None && a.mark == ',' && a.fraction != []
    ensures Swap(Printed(a), ',', '.') == Plain(a)
  {
    DigitsHold(a.whole, ',');
    DigitsHold(a.fraction, ',');
    SwapConcat(Whole(a), [','] + a.fraction, ',', '.');
    SwapAbsent(Whole(a), ',', '.');
    SwapConcat([','], a.fraction, ',', '.');
    SwapAbsent(a.fraction, ',', '.');
    assert Swap([','], ',', '.') == ['.'];
  }

  /** With decimals the mark comes after every group separator. */
  lemma MarkComesLast(a: Amount, c: char)
    requires Printable(a) && a.fraction != [] && c in {'.', ','} && c != a.mark
    ensures LastIndex(Printed(a), c) < LastIndex(Printed(a), a.mark)
    ensures Tail(Printed(a), a.mark) == a.fraction
  {
    DigitsHold(a.fraction, a.mark);
    DigitsHold(a.fraction, c);
    assert Printed(a) == Whole(a) + [a.mark] + a.fraction;
    LastIndexIs(Whole(a), a.mark, a.fraction);
    forall j | |Whole(a)| <= j < |Printed(a)| ensures Printed(a)[j] != c {
      assert Printed(a)[j] == ([a.mark] + a.fraction)[j - |Whole(a)|];
    }
  }

  lemma SeparatorsShow(a: Amount)
    requires Printable(a) && a.group.Some? && |a.whole| > 3
    ensures |Printed(a)| > |Printed(a.(group := None))|
  {
    GroupedShape(a.whole, a.group.value);
  }

  lemma BothReadDotGroups(a: Amount)
    requires Printable(a) && a.fraction != [] && a.group == Some('.') && |a.whole| > 3
    ensures ReceiptMarks(Printed(a)) == Plain(a) == BankMarks(Printed(a))
  {
    MarksIn(a, '.');
    MarksIn(a, ',');
    MarkComesLast(a, '.');
    RemoveSeparator(a, '.');
    CommaMarkBecomesDot(a.(group := None));
  }

  lemma ReceiptOnCommas(a: Amount)
    requires Printable(a) && a.fraction != [] && a.group == Some(',') && |a.whole| > 3
    ensures ReceiptMarks(Printed(a)) == Plain(a)
  {
    MarksIn(a, '.');
    MarksIn(a, ',');
    MarkComesLast(a, ',');
    RemoveSeparator(a, ',');
  }

  lemma CommaGoes(a: Amount)
    requires Printable(a) && a.fraction != [] && a.group == None && a.mark == ','
    ensures |Remove(Printed(a), ',')| < |Printed(a)|
  {
    RemoveAround(Whole(a), ',', a.fraction) by { DigitsHold(a.fraction, ','); }
    DigitsHold(a.whole, ',');
    RemoveAbsent(Whole(a), ',');
    assert Printed(a) == Whole(a) + [','] + a.fraction;
  }

  lemma BankOnUngrouped(a: Amount)
    requires Printable(a) && a.fraction != [] && a.group == None
    ensures BankMarks(Printed(a)) == Plain(a)
  {
    MarksIn(a, '.');
    MarksIn(a, ',');
    if a.mark == ',' { CommaMarkBecomesDot(a); }
  }

  lemma ReceiptOnUngrouped(a: Amount)
    requires Printable(a) && a.fraction != [] && a.group == None
    ensures ReceiptMarks(Printed(a)) == Plain(a) <==> a.mark == '.' || |a.fraction| <= 2
  {
    MarksIn(a, '.');
    MarksIn(a, ',');
    if a.mark == ',' {
      MarkComesLast(a, '.');
      CommaMarkBecomesDot(a);
      CommaGoes(a);
    }
  }

  lemma ReceiptOnWholes(a: Amount)
    requires Printable(a) && a.fraction == [] && a == Compact(a)
    ensures ReceiptMarks(Printed(a)) == Plain(a) <==> a.group != Some('.')
  {
    MarksIn(a, '.');
    MarksIn(a, ',');
    if a.group.Some? { SeparatorsShow(a); }
    if a.group == Some(',') {
      LastGroup(if a.negative then "-" else "", a.whole, ',');
      assert Printed(a) == (if a.negative then "-" else "") + Grouped(a.whole, ',');
      RemoveSeparator(a, ',');
    }
  }

  lemma BankOnWholes(a: Amount)
    requires Printable(a) && a.fraction == [] && a == Compact(a)
    ensures BankMarks(Printed(a)) == Plain(a) <==> a.group == None
  {
    MarksIn(a, '.');
    MarksIn(a, ',');
    if a.group.Some? { SeparatorsShow(a); }
  }

  /** The two marks trade places: 1,234.56 is read as 1.23456. */
  lemma BankOnCommas(a: Amount)
    requires Printable(a) && a.fraction != [] && a.group == Some(',') && |a.whole| > 3
    ensures BankMarks(Printed(a)) == Whole(a.(group := Some('.'))) + a.fraction
    ensures BankMarks(Printed(a)) != Plain(a)
  {
    MarksIn(a, '.');
    MarksIn(a, ',');
    DotMarkGoes(a);
    CommaGroupsBecomeDots(a);
    DifferAtTheMark(if a.negative then "-" else "", a);
  }

  lemma DotMarkGoes(a: Amount)
    requires Printable(a) && a.fraction != [] && a.group == Some(',')
    ensures Remove(Printed(a), '.') == Whole(a) + a.fraction
  {
    assert Printed(a) == Whole(a) + ['.'] + a.fraction;
    DigitsHold(a.fraction, '.');
    GroupedShape(a.whole, ',');
    RemoveAbsent(Whole(a), '.');
    RemoveAround(Whole(a), '.', a.fraction);
  }

  lemma CommaGroupsBecomeDots(a: Amount)
    requires Printable(a) && a.group == Some(',')
    ensures Swap(Whole(a) + a.fraction, ',', '.') == Whole(a.(group := Some('.'))) + a.fraction
  {
    var sign := if a.negative then "-" else "";
    SwapConcat(Whole(a), a.fraction, ',', '.');
    SwapConcat(sign, Grouped(a.whole, ','), ',', '.');
    SwapAbsent(sign, ',', '.');
    RegroupedBySwap(a.whole, ',', '.');
    DigitsHold(a.fraction, ',');
    SwapAbsent(a.fraction, ',', '.');
  }

  lemma DifferAtTheMark(sign: string, a: Amount)
    requires Printable(a) && a.fraction != [] && sign == if a.negative then "-" else ""
    ensures sign + Grouped(a.whole, '.') + a.fraction != Plain(a)
  {
    GroupedShape(a.whole, '.');
    var misread, plain := sign + Grouped(a.whole, '.') + a.fraction, Plain(a);
    if |misread| == |plain| {
      var k := |plain| - 1 - |a.fraction|;
      assert plain[k] == '.';
      assert misread[k] == Grouped(a.whole, '.')[|Grouped(a.whole, '.')| - 1];
    }
  }

  lemma CompactIsTheSame(a: Amount)
    requires Printable(a)
    ensures var c := Compact(a);
            && Printable(c) && Plain(c) == Plain(a) && Compact(c) == c
            && ReceiptReads(c) == ReceiptReads(a) && BankReads(c) == BankReads(a)
  {
  }

  /** Whatever blanks surround it, the receipt parser reads an amount as the number printed exactly when
      `ReceiptReads` says so. */
  lemma ReceiptRoundTrip(before: string, a: Amount, after: string)
    requires Printable(a) && AllSpace(before) && AllSpace(after)
    ensures NormalizeReceipt(before + Printed(a) + after) == Plain(a) <==> ReceiptReads(a)
  {
    PaddingGoes(before, a, after);
    CompactIsTheSame(a);
    var c := Compact(a);
    if c.fraction == [] { ReceiptOnWholes(c); }
    else if c.group == Some('.') { BothReadDotGroups(c); }
    else if c.group == Some(',') { ReceiptOnCommas(c); }
    else { ReceiptOnUngrouped(c); }
  }

  /** The same for the bank import. */
  lemma BankRoundTrip(before: string, a: Amount, after: string)
    requires Printable(a) && AllSpace(before) && AllSpace(after)
    ensures NormalizeBank(before + Printed(a) + after) == Plain(a) <==> BankReads(a)
  {
    PaddingGoes(before, a, after);
    CompactIsTheSame(a);
    var c := Compact(a);
    if c.fraction == [] { BankOnWholes(c); }
    else if c.group == Some('.') { BothReadDotGroups(c); }
    else if c.group == Some(',') { BankOnCommas(c); }
    else { BankOnUngrouped(c); }
  }

  /** The plain string is a fixed point of both. */
  lemma PlainStays(a: Amount)
    requires Printable(a)
    ensures NormalizeReceipt(Plain(a)) == Plain(a) == NormalizeBank(Plain(a))
  {
    var p := a.(group := None, mark := '.');
    ReceiptRoundTrip("", p, "");
    BankRoundTrip("", p, "");
    assert "" + Printed(p) + "" == Printed(p);
  }

  /** Every documented style with one or two decimals, and comma groups without decimals, survive the
      receipt parser, and normalising again changes nothing. */
  lemma DocumentedStylesSurvive(before: string, a: Amount, after: string)
    requires Printable(a) && AllSpace(before) && AllSpace(after)
    requires 1 <= |a.fraction| <= 2 || (a.fraction == [] && a.group != Some('.'))
    ensures var read := NormalizeReceipt(before + Printed(a) + after);
            read == Plain(a) && NormalizeReceipt(read) == read
  {
    ReceiptRoundTrip(before, a, after);
    PlainStays(a);
  }
}
