/** Turning the lines of the three input files into integer tuples: every
    line is checked against its format first, then cut into fields and each
    field converted with `Integer.parseInt`; crossing tuples are then sorted
    by id. Reading the files themselves is not part of this model: the
    validators take the lines. */
module TextParsing {
  import opened Errors
  import opened Decimal
  import opened LineFormats

  // ---- String.split with a one-character separator ----

  /** The pieces of `s` between the occurrences of `sep`, empty ones included. */
  function Pieces(s: string, sep: char): (r: seq<string>)
    ensures |r| >= 1
    decreases |s|
  {
    if s == [] then [[]]
    else
      var rest := Pieces(s[1..], sep);
      if s[0] == sep then [[]] + rest else [[s[0]] + rest[0]] + rest[1..]
  }

  /** Drops the empty strings at the end of a list. */
  function DropTrailingEmpty(r: seq<string>): seq<string>
    decreases |r|
  {
    if r != [] && r[|r| - 1] == [] then DropTrailingEmpty(r[..|r| - 1]) else r
  }

  /** `input.split(sep)`: the input itself when the separator does not occur,
      otherwise the pieces without the trailing empty ones. */
  function Split(s: string, sep: char): seq<string> {
    if sep !in s then [s] else DropTrailingEmpty(Pieces(s, sep))
  }

  /** The fields written one after the other with `sep` between them. */
  function JoinWith(fs: seq<string>, sep: char): string
    requires |fs| >= 1
    decreases |fs|
  {
    if |fs| == 1 then fs[0] else fs[0] + [sep] + JoinWith(fs[1..], sep)
  }

  lemma {:induction false} PiecesNoSep(f: string, sep: char)
    requires sep !in f
    ensures Pieces(f, sep) == [f]
    decreases |f|
  {
    if f != [] {
      PiecesNoSep(f[1..], sep);
      assert [f[0]] + f[1..] == f;
    }
  }

  lemma {:induction false} PiecesFront(f: string, sep: char, t: string)
    requires sep !in f
    ensures Pieces(f + [sep] + t, sep) == [f] + Pieces(t, sep)
    decreases |f|
  {
    var s := f + [sep] + t;
    if f == [] {
      assert s[1..] == t;
    } else {
      assert s[1..] == f[1..] + [sep] + t;
      PiecesFront(f[1..], sep, t);
      assert [f[0]] + f[1..] == f;
    }
  }

  lemma {:induction false} PiecesOfJoin(fs: seq<string>, sep: char)
    requires |fs| >= 1 && forall k :: 0 <= k < |fs| ==> sep !in fs[k]
    ensures Pieces(JoinWith(fs, sep), sep) == fs
    ensures sep in JoinWith(fs, sep) <==> |fs| >= 2
    decreases |fs|
  {
    if |fs| == 1 {
      PiecesNoSep(fs[0], sep);
    } else {
      PiecesOfJoin(fs[1..], sep);
      PiecesFront(fs[0], sep, JoinWith(fs[1..], sep));
      assert [fs[0]] + fs[1..] == fs;
      var s := JoinWith(fs, sep);
      assert s[|fs[0]|] == sep;
    }
  }

  /** Splitting text joined with a separator gives back the fields, provided
      none of them holds the separator and the last is not empty. */
  lemma SplitJoin(fs: seq<string>, sep: char)
    requires |fs| >= 1 && forall k :: 0 <= k < |fs| ==> sep !in fs[k]
    requires fs[|fs| - 1] != []
    ensures Split(JoinWith(fs, sep), sep) == fs
  {
    PiecesOfJoin(fs, sep);
  }

  /** `removeLastChar`: the string without its last character. */
  function RemoveLastChar(s: string): (r: string)
    requires |s| >= 1
    ensures r + [s[|s| - 1]] == s
  {
    s[..|s| - 1]
  }

  // ---- extractNumbers ----

  /** The maximal runs of digits in `s`, from left to right. */
  function DigitRuns(s: string): (r: seq<string>)
    ensures forall k :: 0 <= k < |r| ==> Digits(r[k])
    decreases |s|
  {
    if s == [] then []
    else if !IsDigit(s[0]) then DigitRuns(s[1..])
    else
      var (t, rest) := Token(s);
      assert t[0] == s[0];
      [t] + DigitRuns(rest)
  }

  /** The value of a slot that `extractNumbers` leaves unset. Java leaves it
      null; `Integer.parseInt` rejects null with the same
      `NumberFormatException` as the empty text, so the empty text stands for it. */
  const NULL_SLOT: string := ""

  /** A `new String[5]` holding the first five runs: slots with no run stay `NULL_SLOT`. */
  function FirstFive(r: seq<string>): (f: seq<string>)
    ensures |f| == 5
    ensures forall k :: 0 <= k < 5 ==> f[k] == if k < |r| then r[k] else NULL_SLOT
  {
    if |r| >= 5 then r[..5] else r + seq(5 - |r|, _ => NULL_SLOT)
  }

  /** `extractNumbers`: fills a five-slot array with the digit runs of the line,
      left to right, until the runs or the slots are used up. */
  method ExtractNumbers(input: string) returns (output: seq<string>)
    ensures output == FirstFive(DigitRuns(input))
  {
    var slots := new string[5] [NULL_SLOT, NULL_SLOT, NULL_SLOT, NULL_SLOT, NULL_SLOT];
    var i := 0;
    var pos := 0;
    ghost var runs := DigitRuns(input);
    while pos < |input| && i < 5
      invariant 0 <= pos <= |input| && 0 <= i <= 5
      invariant slots[..i] + DigitRuns(input[pos..]) == runs
      invariant forall k :: i <= k < 5 ==> slots[k] == NULL_SLOT
      decreases |input| - pos
    {
      if IsDigit(input[pos]) {
        pos := StoreRun(slots, i, input, pos);
        i := i + 1;
      } else {
        SkipAt(input, pos);
        pos := pos + 1;
      }
    }
    assert pos == |input| ==> input[pos..] == [];
    output := slots[..];
    SlotsAreFirstFive(output, i, DigitRuns(input[pos..]), runs);
  }

  /** `output[i] = matcher.group()` for the run that starts at `pos`; the
      result is the position after the run. */
  method StoreRun(slots: array<string>, i: int, input: string, pos: int) returns (next: int)
    requires slots.Length == 5 && 0 <= i < 5
    requires 0 <= pos < |input| && IsDigit(input[pos])
    modifies slots
    ensures pos < next <= |input|
    ensures slots[..] == old(slots[..])[i := Token(input[pos..]).0]
    ensures slots[..i + 1] + DigitRuns(input[next..]) == old(slots[..i]) + DigitRuns(input[pos..])
  {
    var t := Token(input[pos..]).0;
    RunAt(input, pos);
    ghost var filled := slots[..i];
    slots[i] := t;
    assert slots[..i + 1] == filled + [t];
    next := pos + |t|;
  }

  /** Five slots whose first `i` hold the runs before `tail`, and the rest
      `NULL_SLOT`, are `FirstFive` of the runs once the slots or the runs are
      used up. */
  lemma SlotsAreFirstFive(slots: seq<string>, i: int, tail: seq<string>, runs: seq<string>)
    requires |slots| == 5 && 0 <= i <= 5
    requires slots[..i] + tail == runs && (i == 5 || tail == [])
    requires forall k :: i <= k < 5 ==> slots[k] == NULL_SLOT
    ensures slots == FirstFive(runs)
  {
    var f := FirstFive(runs);
    forall k | 0 <= k < 5
      ensures slots[k] == f[k]
    {
      if k < i {
        assert runs[k] == slots[..i][k];
      }
    }
  }

  /** A digit at `pos` starts a run: the run is the first of the runs from `pos`. */
  lemma RunAt(input: string, pos: int)
    requires 0 <= pos < |input| && IsDigit(input[pos])
    ensures pos + |Token(input[pos..]).0| <= |input|
    ensures DigitRuns(input[pos..])
         == [Token(input[pos..]).0] + DigitRuns(input[pos + |Token(input[pos..]).0|..])
  {
    var (t, rest) := Token(input[pos..]);
    assert t[0] == input[pos];
    assert input[pos + |t|..] == rest;
  }

  /** A non-digit at `pos` starts no run. */
  lemma SkipAt(input: string, pos: int)
    requires 0 <= pos < |input| && !IsDigit(input[pos])
    ensures DigitRuns(input[pos..]) == DigitRuns(input[pos + 1..])
  {
    assert input[pos + 1..] == input[pos..][1..];
  }

  /** A line with fewer than five digit runs leaves a null slot, which
      `stringArraytoInt` rejects. */
  lemma ShortLineFailsConversion(input: string)
    requires |DigitRuns(input)| < 5
    ensures ParseAll(FirstFive(DigitRuns(input))) == Failure(ToHighNotNumeric)
  {
    var f := FirstFive(DigitRuns(input));
    assert ParseInt(f[4]).None?;
  }

  lemma {:induction false} DigitRunsSkip(w: string, rest: string)
    requires forall k :: 0 <= k < |w| ==> !IsDigit(w[k])
    ensures DigitRuns(w + rest) == DigitRuns(rest)
    decreases |w|
  {
    if w != [] {
      var s := w + rest;
      assert s[0] == w[0] && !IsDigit(s[0]);
      assert s[1..] == w[1..] + rest;
      assert DigitRuns(s) == DigitRuns(s[1..]);
      assert forall k :: 0 <= k < |w[1..]| ==> w[1..][k] == w[k + 1];
      DigitRunsSkip(w[1..], rest);
    } else {
      assert w + rest == rest;
    }
  }

  lemma DigitRunsFront(t: string, rest: string)
    requires Digits(t) && (rest == [] || !IsDigit(rest[0]))
    ensures DigitRuns(t + rest) == [t] + DigitRuns(rest)
  {
    DigitPrefixOfDigits(t, rest);
    var s := t + rest;
    assert s[..|t|] == t && s[|t|..] == rest;
  }

  /** Words without digits, none of them empty. */
  predicate DigitFree(words: seq<string>) {
    forall k, m :: 0 <= k < |words| && 0 <= m < |words[k]| ==> !IsDigit(words[k][m])
  }

  /** The digit runs of a text of runs and digit-free words are the runs. */
  lemma {:induction false} DigitRunsOfJoin(ts: seq<string>, words: seq<string>)
    requires |ts| == |words| && DigitFree(words) && forall k :: 0 <= k < |words| ==> words[k] != []
    requires forall k :: 0 <= k < |ts| ==> Digits(ts[k])
    ensures DigitRuns(Join(ts, words)) == ts
    decreases |words|
  {
    if words != [] {
      var rest := Join(ts[1..], words[1..]);
      assert DigitFree(words[1..]);
      DigitRunsOfJoin(ts[1..], words[1..]);
      DigitRunsSkip(words[0], rest);
      assert (words[0] + rest)[0] == words[0][0];
      DigitRunsFront(ts[0], words[0] + rest);
      assert ts[0] + words[0] + rest == ts[0] + (words[0] + rest);
      assert [ts[0]] + ts[1..] == ts;
    }
  }

  // ---- stringArraytoInt ----

  /** `Integer.parseInt` on every field; one failure fails the whole list. */
  function ParseAll(fields: seq<string>): (r: Result<seq<int>>)
    ensures r.Success? <==> forall k :: 0 <= k < |fields| ==> ParseInt(fields[k]).Some?
    ensures r.Success? ==> |r.value| == |fields|
    ensures r.Success? ==> forall k :: 0 <= k < |fields| ==> r.value[k] == ParseInt(fields[k]).value
    ensures r.Failure? ==> r.error == ToHighNotNumeric
    decreases |fields|
  {
    if fields == [] then Success([])
    else match ParseInt(fields[0])
      case None => Failure(ToHighNotNumeric)
      case Some(v) =>
        match ParseAll(fields[1..])
        case Failure(e) => Failure(e)
        case Success(vs) => Success([v] + vs)
  }

  /** `stringArraytoInt`: converts field after field and stops at the first
      one that is not an int. */
  method StringArrayToInt(fields: seq<string>) returns (r: Result<seq<int>>)
    ensures r == ParseAll(fields)
  {
    var values: seq<int> := [];
    for i := 0 to |fields|
      invariant |values| == i
      invariant forall k :: 0 <= k < i ==> ParseInt(fields[k]).Some? && values[k] == ParseInt(fields[k]).value
    {
      var v := ParseInt(fields[i]);
      if v.None? {
        return Failure(ToHighNotNumeric);
      }
      values := values + [v.value];
    }
    assert ParseAll(fields).Success?;
    assert ParseAll(fields).value == values;
    return Success(values);
  }

  /** A field of digits that the format bounds is read as its value. */
  lemma ParseSmall(t: string, hi: nat)
    requires Digits(t) && DigitsValue(t) <= hi <= INT_MAX
    ensures ParseInt(t) == Some(DigitsValue(t))
  {
  }

  // ---- sortNodes: a stable sort by the first entry ----

  /** Every tuple has a first entry. */
  predicate Keyed(ts: seq<seq<int>>) {
    forall k :: 0 <= k < |ts| ==> |ts[k]| >= 1
  }

  predicate SortedById(ts: seq<seq<int>>)
    requires Keyed(ts)
  {
    forall a, b :: 0 <= a < b < |ts| ==> ts[a][0] <= ts[b][0]
  }

  /** Inserts `x` behind every tuple whose id is not larger. */
  function InsertById(x: seq<int>, s: seq<seq<int>>): (r: seq<seq<int>>)
    requires |x| >= 1 && Keyed(s)
    ensures Keyed(r) && multiset(r) == multiset(s) + multiset{x}
    decreases |s|
  {
    if s == [] then [x]
    else if x[0] < s[0][0] then [x] + s
    else
      assert s == [s[0]] + s[1..];
      [s[0]] + InsertById(x, s[1..])
  }

  /** `list.sort` by id: an insertion sort, which is stable as the library
      sort is. */
  function SortById(s: seq<seq<int>>): (r: seq<seq<int>>)
    requires Keyed(s)
    ensures Keyed(r) && multiset(r) == multiset(s)
    decreases |s|
  {
    if s == [] then []
    else
      assert s == s[..|s| - 1] + [s[|s| - 1]];
      InsertById(s[|s| - 1], SortById(s[..|s| - 1]))
  }

  /** The tuples with id `id`, in list order. */
  function WithId(s: seq<seq<int>>, id: int): seq<seq<int>>
    requires Keyed(s)
    decreases |s|
  {
    if s == [] then [] else (if s[0][0] == id then [s[0]] else []) + WithId(s[1..], id)
  }

  lemma {:induction false} InsertSorted(x: seq<int>, s: seq<seq<int>>)
    requires |x| >= 1 && Keyed(s) && SortedById(s)
    ensures SortedById(InsertById(x, s))
    decreases |s|
  {
    if s != [] && x[0] >= s[0][0] {
      InsertSorted(x, s[1..]);
      var r := InsertById(x, s);
      forall b | 0 < b < |r|
        ensures r[0][0] <= r[b][0]
      {
        assert r[b] in multiset(InsertById(x, s[1..]));
        assert r[b] in multiset(s[1..]) + multiset{x};
        if r[b] in multiset(s[1..]) {
          var j :| 0 <= j < |s[1..]| && s[1..][j] == r[b];
          assert s[j + 1] == r[b];
        }
      }
    }
  }

  /** The sort orders the tuples by ascending id. */
  lemma {:induction false} SortSorted(s: seq<seq<int>>)
    requires Keyed(s)
    ensures SortedById(SortById(s))
    decreases |s|
  {
    if s != [] {
      SortSorted(s[..|s| - 1]);
      InsertSorted(s[|s| - 1], SortById(s[..|s| - 1]));
    }
  }

  lemma {:induction false} WithIdAppend(a: seq<seq<int>>, b: seq<seq<int>>, id: int)
    requires Keyed(a) && Keyed(b)
    ensures Keyed(a + b) && WithId(a + b, id) == WithId(a, id) + WithId(b, id)
    decreases |a|
  {
    KeyedAppend(a, b);
    if a != [] {
      var ab := a + b;
      assert ab[0] == a[0];
      assert ab[1..] == a[1..] + b;
      WithIdAppend(a[1..], b, id);
      var h := if a[0][0] == id then [a[0]] else [];
      assert WithId(ab, id) == h + (WithId(a[1..], id) + WithId(b, id));
      AppendAssoc(h, WithId(a[1..], id), WithId(b, id));
    } else {
      assert a + b == b;
    }
  }

  /** Joining two keyed lists gives a keyed list. */
  lemma KeyedAppend(a: seq<seq<int>>, b: seq<seq<int>>)
    requires Keyed(a) && Keyed(b)
    ensures Keyed(a + b)
  {
    var ab := a + b;
    forall k | 0 <= k < |ab|
      ensures |ab[k]| >= 1
    {
      if k < |a| {
        assert ab[k] == a[k];
      } else {
        assert ab[k] == b[k - |a|];
      }
    }
  }

  lemma {:induction false} WithIdAbove(s: seq<seq<int>>, id: int)
    requires Keyed(s) && SortedById(s) && s != [] && id < s[0][0]
    ensures WithId(s, id) == []
    decreases |s|
  {
    if |s| > 1 {
      WithIdAbove(s[1..], id);
    }
  }

  /** Concatenation is associative. */
  lemma AppendAssoc(a: seq<seq<int>>, b: seq<seq<int>>, c: seq<seq<int>>)
    ensures a + (b + c) == (a + b) + c
  {
  }

  /** The tuples with id `id` of a list with a given head. */
  lemma WithIdCons(h: seq<int>, t: seq<seq<int>>, id: int)
    requires |h| >= 1 && Keyed(t)
    ensures Keyed([h] + t)
    ensures WithId([h] + t, id) == (if h[0] == id then [h] else []) + WithId(t, id)
  {
    assert ([h] + t)[1..] == t;
  }

  /** The tail of a sorted list is sorted. */
  lemma SortedTail(s: seq<seq<int>>)
    requires Keyed(s) && SortedById(s) && s != []
    ensures Keyed(s[1..]) && SortedById(s[1..])
  {
    forall a, b | 0 <= a < b < |s[1..]|
      ensures s[1..][a][0] <= s[1..][b][0]
    {
      assert s[1..][a] == s[a + 1] && s[1..][b] == s[b + 1];
    }
  }

  /** The recursive case of `InsertWithId`: `x` goes behind the head. */
  lemma InsertWithIdBehind(x: seq<int>, s: seq<seq<int>>, id: int)
    requires |x| >= 1 && Keyed(s) && s != [] && x[0] >= s[0][0]
    requires Keyed(s[1..])
    requires WithId(InsertById(x, s[1..]), id) == WithId(s[1..], id) + (if x[0] == id then [x] else [])
    ensures WithId(InsertById(x, s), id) == WithId(s, id) + (if x[0] == id then [x] else [])
  {
    var xs := if x[0] == id then [x] else [];
    var rest := InsertById(x, s[1..]);
    var h := if s[0][0] == id then [s[0]] else [];
    var tail := WithId(s[1..], id);
    assert InsertById(x, s) == [s[0]] + rest;
    WithIdCons(s[0], rest, id);
    assert WithId(s, id) == h + tail;
    AppendAssoc(h, tail, xs);
  }

  lemma {:induction false} InsertWithId(x: seq<int>, s: seq<seq<int>>, id: int)
    requires |x| >= 1 && Keyed(s) && SortedById(s)
    ensures WithId(InsertById(x, s), id) == WithId(s, id) + (if x[0] == id then [x] else [])
    decreases |s|
  {
    if s == [] {
      WithIdCons(x, [], id);
      assert InsertById(x, s) == [x] + [];
    } else if x[0] < s[0][0] {
      WithIdCons(x, s, id);
      if x[0] == id {
        WithIdAbove(s, id);
      }
      assert InsertById(x, s) == [x] + s;
    } else {
      SortedTail(s);
      InsertWithId(x, s[1..], id);
      InsertWithIdBehind(x, s, id);
    }
  }

  /** Stability: the tuples with one id keep their relative order. */
  lemma {:induction false} SortStable(s: seq<seq<int>>, id: int)
    requires Keyed(s)
    ensures WithId(SortById(s), id) == WithId(s, id)
    decreases |s|
  {
    if s != [] {
      var init := s[..|s| - 1];
      assert init + [s[|s| - 1]] == s;
      SortStable(init, id);
      SortStableStep(init, s[|s| - 1], id);
    }
  }

  /** The inductive step of `SortStable`: inserting the last tuple keeps the
      order of the tuples with one id. */
  lemma SortStableStep(init: seq<seq<int>>, last: seq<int>, id: int)
    requires Keyed(init) && |last| >= 1
    requires WithId(SortById(init), id) == WithId(init, id)
    ensures Keyed(init + [last])
    ensures WithId(SortById(init + [last]), id) == WithId(init + [last], id)
  {
    var x := if last[0] == id then [last] else [];
    var sorted := SortById(init);
    SortByIdSnoc(init, last);
    SortSorted(init);
    InsertWithId(last, sorted, id);
    assert WithId(InsertById(last, sorted), id) == WithId(init, id) + x;
    WithIdSingle(last, id);
    WithIdAppend(init, [last], id);
  }

  /** The tuples with id `id` of a one-tuple list. */
  lemma WithIdSingle(t: seq<int>, id: int)
    requires |t| >= 1
    ensures WithId([t], id) == if t[0] == id then [t] else []
  {
    assert [t][1..] == [];
  }

  /** `SortById` inserts the last tuple into the sorted rest. */
  lemma SortByIdSnoc(init: seq<seq<int>>, last: seq<int>)
    requires Keyed(init) && |last| >= 1
    ensures Keyed(init + [last])
    ensures SortById(init + [last]) == InsertById(last, SortById(init))
  {
    var s := init + [last];
    assert s[..|s| - 1] == init && s[|s| - 1] == last;
  }

  // ---- the three files ----

  /** Whether a line is of the format of its file. */
  predicate Matches(file: InputFile, line: string) {
    match file
    case CarFile => CarLine(line)
    case StreetFile => StreetLine(line)
    case CrossingFile => CrossingLine(line)
  }

  /** `validatePatternMatch`: one line that is not of the format rejects the file. */
  method ValidatePatternMatch(lines: seq<string>, file: InputFile) returns (r: Outcome)
    ensures r.Pass? <==> forall k :: 0 <= k < |lines| ==> Matches(file, lines[k])
    ensures r.Fail? ==> r.error == NoValidStringLine(file)
  {
    for i := 0 to |lines|
      invariant forall k :: 0 <= k < i ==> Matches(file, lines[k])
    {
      if !Matches(file, lines[i]) {
        return Fail(NoValidStringLine(file));
      }
    }
    return Pass;
  }

  /** A crossing line cut at ':' with the trailing 't' removed. */
  function CrossingCut(line: string): (r: seq<string>)
    requires CrossingLine(line)
    ensures var (a, c) := CrossingFields(line).value; r == [a, [c]]
  {
    CrossingLineSound(line);
    var (a, c) := CrossingFields(line).value;
    SplitJoin([a, [c, 't']], ':');
    assert JoinWith([a, [c, 't']], ':') == CrossingText(a, c);
    var parts := Split(line, ':');
    assert RemoveLastChar(parts[1]) == [c];
    parts[1 := RemoveLastChar(parts[1])]
  }

  /** The fields that a line of the file is cut into. */
  function Cut(file: InputFile, line: string): seq<string>
    requires Matches(file, line)
  {
    match file
    case CarFile => Split(line, ',')
    case StreetFile => FirstFive(DigitRuns(line))
    case CrossingFile => CrossingCut(line)
  }

  /** The tuples of the lines, in file order. */
  function ConvertAll(file: InputFile, lines: seq<string>): (r: Result<seq<seq<int>>>)
    requires forall k :: 0 <= k < |lines| ==> Matches(file, lines[k])
    ensures r.Success? ==> |r.value| == |lines|
    decreases |lines|
  {
    if lines == [] then Success([])
    else
      match ConvertAll(file, lines[..|lines| - 1])
      case Failure(e) => Failure(e)
      case Success(ts) =>
        match ParseAll(Cut(file, lines[|lines| - 1]))
        case Failure(e) => Failure(e)
        case Success(t) => Success(ts + [t])
  }

  /** What a validator returns for the lines of its file. */
  function Tuples(file: InputFile, lines: seq<string>): Result<seq<seq<int>>> {
    if !(forall k :: 0 <= k < |lines| ==> Matches(file, lines[k])) then Failure(NoValidStringLine(file))
    else match ConvertAll(file, lines)
      case Failure(e) => Failure(e)
      case Success(ts) =>
        if file == CrossingFile then
          ConvertedCrossingsKeyed(lines);
          Success(SortById(ts))
        else Success(ts)
  }

  /** The fields of one line, as the file's pipeline cuts them. */
  method CutLine(file: InputFile, line: string) returns (fields: seq<string>)
    requires Matches(file, line)
    ensures fields == Cut(file, line)
  {
    match file {
      case CarFile =>
        fields := Split(line, ',');
      case StreetFile =>
        fields := ExtractNumbers(line);
      case CrossingFile =>
        var parts := Split(line, ':');
        CrossingLineSound(line);
        var (a, c) := CrossingFields(line).value;
        SplitJoin([a, [c, 't']], ':');
        assert JoinWith([a, [c, 't']], ':') == CrossingText(a, c);
        parts := parts[1 := RemoveLastChar(parts[1])];
        fields := parts;
    }
  }

  /** The common pipeline of `validateCars`, `validateStreets` and
      `validateCrossings`: the format check on every line, then conversion
      line by line, then, for crossings, the sort by id. */
  method Validate(file: InputFile, lines: seq<string>) returns (r: Result<seq<seq<int>>>)
    ensures r == Tuples(file, lines)
  {
    var matched := ValidatePatternMatch(lines, file);
    if matched.Fail? {
      return Failure(matched.error);
    }
    r := ConvertLines(file, lines);
    if r.Success? && file == CrossingFile {
      ConvertedCrossingsKeyed(lines);
      r := Success(SortById(r.value));
    }
  }

  /** One more line: its tuple is appended, or its failure ends the conversion. */
  lemma ConvertAllStep(file: InputFile, lines: seq<string>, i: nat)
    requires i < |lines| && forall k :: 0 <= k < |lines| ==> Matches(file, lines[k])
    ensures ConvertAll(file, lines[..i + 1]) ==
      match ConvertAll(file, lines[..i])
      case Failure(e) => Failure(e)
      case Success(ts) =>
        match ParseAll(Cut(file, lines[i]))
        case Failure(e) => Failure(e)
        case Success(t) => Success(ts + [t])
  {
    assert lines[..i + 1][..i] == lines[..i];
  }

  /** Cuts and converts line after line, stopping at the first failure. */
  method ConvertLines(file: InputFile, lines: seq<string>) returns (r: Result<seq<seq<int>>>)
    requires forall k :: 0 <= k < |lines| ==> Matches(file, lines[k])
    ensures r == ConvertAll(file, lines)
  {
    var parameters: seq<seq<int>> := [];
    for i := 0 to |lines|
      invariant ConvertAll(file, lines[..i]) == Success(parameters)
    {
      var fields := CutLine(file, lines[i]);
      var tuple := StringArrayToInt(fields);
      ConvertAllStep(file, lines, i);
      if tuple.Failure? {
        ConvertFailurePersists(file, lines, i + 1);
        return Failure(tuple.error);
      }
      parameters := parameters + [tuple.value];
    }
    assert lines[..|lines|] == lines;
    return Success(parameters);
  }

  method ValidateCars(lines: seq<string>) returns (r: Result<seq<seq<int>>>)
    ensures r == Tuples(CarFile, lines)
  {
    r := Validate(CarFile, lines);
  }

  method ValidateStreets(lines: seq<string>) returns (r: Result<seq<seq<int>>>)
    ensures r == Tuples(StreetFile, lines)
  {
    r := Validate(StreetFile, lines);
  }

  method ValidateCrossings(lines: seq<string>) returns (r: Result<seq<seq<int>>>)
    ensures r == Tuples(CrossingFile, lines)
  {
    r := Validate(CrossingFile, lines);
  }

  /** A failing prefix fails the whole file. */
  lemma {:induction false} ConvertFailurePersists(file: InputFile, lines: seq<string>, n: nat)
    requires n <= |lines| && forall k :: 0 <= k < |lines| ==> Matches(file, lines[k])
    requires ConvertAll(file, lines[..n]).Failure?
    ensures ConvertAll(file, lines) == Failure(ToHighNotNumeric)
    decreases |lines| - n
  {
    if n == |lines| {
      assert lines[..n] == lines;
      ConvertFailureIsTooHigh(file, lines);
    } else {
      assert lines[..n + 1][..n] == lines[..n];
      ConvertFailurePersists(file, lines, n + 1);
    }
  }

  lemma {:induction false} ConvertFailureIsTooHigh(file: InputFile, lines: seq<string>)
    requires forall k :: 0 <= k < |lines| ==> Matches(file, lines[k])
    requires ConvertAll(file, lines).Failure?
    ensures ConvertAll(file, lines).error == ToHighNotNumeric
    decreases |lines|
  {
    if lines != [] && ConvertAll(file, lines[..|lines| - 1]).Failure? {
      ConvertFailureIsTooHigh(file, lines[..|lines| - 1]);
    }
  }

  // ---- what the tuples hold ----

  /** The tuple of a car line: id, street, preferred speed in 20..40 and
      acceleration in 1..10. */
  predicate CarTuple(t: seq<int>) {
    |t| == 4 && t[0] >= 0 && t[1] >= 0 && 20 <= t[2] <= 40 && 1 <= t[3] <= 10
  }

  /** The tuple of a street line: start, end, length in 10..10000, lanes 1 or
      2, speed limit in 5..40. */
  predicate StreetTuple(t: seq<int>) {
    |t| == 5 && t[0] >= 0 && t[1] >= 0 && 10 <= t[2] <= 10000 && 1 <= t[3] <= 2 && 5 <= t[4] <= 40
  }

  /** The tuple of a crossing line: id and a green time of 0, 1 or 3..9. */
  predicate CrossingTuple(t: seq<int>) {
    |t| == 2 && t[0] >= 0 && (t[1] == 0 || t[1] == 1 || 3 <= t[1] <= 9)
  }

  predicate TupleOf(file: InputFile, t: seq<int>) {
    match file
    case CarFile => CarTuple(t)
    case StreetFile => StreetTuple(t)
    case CrossingFile => CrossingTuple(t)
  }

  /** Fields of digits that all convert hold their decimal values. */
  lemma ParsedDigits(fs: seq<string>)
    requires forall k :: 0 <= k < |fs| ==> Digits(fs[k])
    requires ParseAll(fs).Success?
    ensures forall k :: 0 <= k < |fs| ==> Digits(fs[k]) && ParseAll(fs).value[k] == DigitsValue(fs[k])
  {
    forall k | 0 <= k < |fs|
      ensures Digits(fs[k]) && ParseAll(fs).value[k] == DigitsValue(fs[k])
    {
      ParseDigits(fs[k]);
    }
  }

  /** The car format is the four fields joined with commas. */
  lemma CarText(f: seq<string>)
    requires |f| == 4
    ensures Join(f, CAR_WORDS) == JoinWith(f, ',')
  {
    var w := CAR_WORDS;
    assert Join(f[3..], w[3..]) == f[3] + "" + Join(f[4..], w[4..]) == f[3];
    assert Join(f[2..], w[2..]) == f[2] + "," + Join(f[3..], w[3..]);
    assert Join(f[1..], w[1..]) == f[1] + "," + Join(f[2..], w[2..]);
    assert Join(f, w) == f[0] + "," + Join(f[1..], w[1..]);
    assert JoinWith(f[3..], ',') == f[3];
    assert JoinWith(f[2..], ',') == f[2] + [','] + JoinWith(f[3..], ',');
    assert JoinWith(f[1..], ',') == f[1] + [','] + JoinWith(f[2..], ',');
  }

  lemma CarLineTuple(line: string)
    requires CarLine(line)
    ensures ParseAll(Cut(CarFile, line)).Success? ==> CarTuple(ParseAll(Cut(CarFile, line)).value)
  {
    FieldsSound(line, CAR_WORDS);
    var f := Fields(line, CAR_WORDS).value;
    CarText(f);
    forall k | 0 <= k < 4
      ensures ',' !in f[k]
    {
      assert AllDigits(f[k]);
    }
    SplitJoin(f, ',');
    assert Cut(CarFile, line) == f;
    if ParseAll(f).Success? {
      ParsedDigits(f);
      PreferredSpeedFieldValues(f[2]);
      AccelerationFieldValues(f[3]);
    }
  }

  /** The words of the street format hold no digit. */
  lemma StreetWordsDigitFree()
    ensures DigitFree(STREET_WORDS) && forall k :: 0 <= k < |STREET_WORDS| ==> STREET_WORDS[k] != []
  {
    forall k, m | 0 <= k < |STREET_WORDS| && 0 <= m < |STREET_WORDS[k]|
      ensures !IsDigit(STREET_WORDS[k][m])
    {
      var w := STREET_WORDS[k];
      assert w == "-->" || w == ":" || w == "m," || w == "x," || w == "max";
    }
  }

  lemma StreetLineTuple(line: string)
    requires StreetLine(line)
    ensures ParseAll(Cut(StreetFile, line)).Success? ==> StreetTuple(ParseAll(Cut(StreetFile, line)).value)
  {
    FieldsSound(line, STREET_WORDS);
    var f := Fields(line, STREET_WORDS).value;
    StreetWordsDigitFree();
    DigitRunsOfJoin(f, STREET_WORDS);
    assert Cut(StreetFile, line) == f;
    if ParseAll(f).Success? {
      ParsedDigits(f);
      LengthFieldValues(f[2]);
      assert DigitsValue(f[3]) == DigitValue(f[3][0]) by {
        assert f[3][..0] == [];
      }
      SpeedLimitFieldValues(f[4]);
    }
  }

  lemma CrossingLineTuple(line: string)
    requires CrossingLine(line)
    ensures ParseAll(Cut(CrossingFile, line)).Success? ==> CrossingTuple(ParseAll(Cut(CrossingFile, line)).value)
  {
    CrossingLineSound(line);
    var (a, c) := CrossingFields(line).value;
    var fs := Cut(CrossingFile, line);
    assert fs == [a, [c]];
    if ParseAll(fs).Success? {
      assert ParseInt(fs[1]).Some?;
      assert c != '|';
      ParsedDigits(fs);
      assert DigitsValue([c]) == DigitValue(c) by {
        assert [c][..0] == [];
      }
    }
  }

  /** A crossing line with green time '|' passes the format check but is not
      an int. */
  lemma CrossingBarFails(line: string)
    requires CrossingLine(line) && CrossingFields(line).value.1 == '|'
    ensures ParseAll(Cut(CrossingFile, line)) == Failure(ToHighNotNumeric)
  {
    assert ParseInt("|").None?;
  }

  lemma {:induction false} ConvertAllTuples(file: InputFile, lines: seq<string>)
    requires forall k :: 0 <= k < |lines| ==> Matches(file, lines[k])
    requires ConvertAll(file, lines).Success?
    ensures forall k :: 0 <= k < |lines| ==> TupleOf(file, ConvertAll(file, lines).value[k])
    decreases |lines|
  {
    if lines != [] {
      var init := lines[..|lines| - 1];
      ConvertAllTuples(file, init);
      var line := lines[|lines| - 1];
      match file {
        case CarFile => CarLineTuple(line);
        case StreetFile => StreetLineTuple(line);
        case CrossingFile => CrossingLineTuple(line);
      }
    }
  }

  lemma ConvertedCrossingsKeyed(lines: seq<string>)
    requires forall k :: 0 <= k < |lines| ==> Matches(CrossingFile, lines[k])
    ensures ConvertAll(CrossingFile, lines).Success? ==> Keyed(ConvertAll(CrossingFile, lines).value)
  {
    if ConvertAll(CrossingFile, lines).Success? {
      ConvertAllTuples(CrossingFile, lines);
    }
  }

  /** Every tuple a validator returns is of the form of its file, and car and
      street tuples come in file order, one per line. */
  lemma TuplesShape(file: InputFile, lines: seq<string>)
    requires Tuples(file, lines).Success?
    ensures var ts := Tuples(file, lines).value;
      |ts| == |lines| && forall k :: 0 <= k < |ts| ==> TupleOf(file, ts[k])
  {
    ConvertAllTuples(file, lines);
    if file == CrossingFile {
      var ts := ConvertAll(file, lines).value;
      var sorted := Tuples(file, lines).value;
      forall k | 0 <= k < |sorted|
        ensures CrossingTuple(sorted[k])
      {
        assert sorted[k] in multiset(ts);
      }
    }
  }

  /** The crossing tuples are the converted lines, sorted by id and stable. */
  lemma CrossingsSorted(lines: seq<string>)
    requires Tuples(CrossingFile, lines).Success?
    ensures var ts := ConvertAll(CrossingFile, lines).value;
      var sorted := Tuples(CrossingFile, lines).value;
      && Keyed(ts) && Keyed(sorted) && SortedById(sorted) && multiset(sorted) == multiset(ts)
      && forall id :: WithId(sorted, id) == WithId(ts, id)
  {
    ConvertedCrossingsKeyed(lines);
    var ts := ConvertAll(CrossingFile, lines).value;
    SortSorted(ts);
    forall id
      ensures WithId(SortById(ts), id) == WithId(ts, id)
    {
      SortStable(ts, id);
    }
  }

  /** A file of any kind is rejected as a whole as soon as one line is not
      of its format, before any conversion. */
  lemma BadLineRejectsFile(file: InputFile, lines: seq<string>, k: nat)
    requires k < |lines| && !Matches(file, lines[k])
    ensures Tuples(file, lines) == Failure(NoValidStringLine(file))
  {
  }
}
