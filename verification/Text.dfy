/**
 The character and string operations of the C++ standard library that the codecs are
 written with. A `std::string` is a `string` whose characters are bytes.
 */
module Text {

  // std::isdigit, std::isspace and the blanks " \t" that Trim removes, in the "C" locale.
  predicate IsDigit(c: char) {
    '0' <= c <= '9'
  }

  predicate IsBlank(c: char) {
    c == ' ' || c == '\t'
  }

  predicate IsSpace(c: char) {
    c == ' ' || 9 <= c as int <= 13
  }

  predicate IsBytes(s: string) {
    forall i :: 0 <= i < |s| ==> s[i] as int < 256
  }

  /** std::string::find; the length stands for npos. */
  function Find(s: string, c: char, from: nat): (i: nat)
    requires from <= |s|
    ensures from <= i <= |s|
    ensures i < |s| ==> s[i] == c
    decreases |s| - from
  {
    if from == |s| || s[from] == c then from else Find(s, c, from + 1)
  }

  /** Nothing before the position found matches. */
  lemma {:induction false} FindSkips(s: string, c: char, from: nat)
    requires from <= |s|
    ensures forall j :: from <= j < Find(s, c, from) ==> s[j] != c
    decreases |s| - from
  {
    if from < |s| && s[from] != c {
      FindSkips(s, c, from + 1);
    }
  }

  /** std::string::rfind before position `to`; -1 stands for npos. */
  function RFindBefore(s: string, c: char, to: nat): (i: int)
    requires to <= |s|
    ensures -1 <= i < to
    ensures i >= 0 ==> s[i] == c
  {
    if to == 0 then -1 else if s[to - 1] == c then to - 1 else RFindBefore(s, c, to - 1)
  }

  function RFind(s: string, c: char): (i: int)
    ensures -1 <= i < |s|
    ensures i >= 0 ==> s[i] == c
  {
    RFindBefore(s, c, |s|)
  }

  lemma {:induction false} RFindSkips(s: string, c: char, to: nat)
    requires to <= |s|
    ensures forall j :: RFindBefore(s, c, to) < j < to ==> s[j] != c
  {
    if to > 0 && s[to - 1] != c {
      RFindSkips(s, c, to - 1);
    }
  }

  /** The characters from position `start` up to `end`. */
  function Substr(s: string, start: nat, end: nat): (r: string)
    requires start <= end <= |s|
    ensures |r| == end - start
    ensures forall i :: 0 <= i < |r| ==> r[i] == s[start + i]
    decreases end - start
  {
    if start == end then "" else [s[start]] + Substr(s, start + 1, end)
  }

  predicate StartsWith(s: string, prefix: string) {
    prefix <= s
  }

  predicate EndsWith(s: string, c: char) {
    s != "" && s[|s| - 1] == c
  }

  predicate Trimmed(s: string) {
    s == "" || (s[0] != ' ' && s[0] != '\t' && s[|s| - 1] != ' ' && s[|s| - 1] != '\t')
  }

  // The first non-blank in [from, end), and behind the last one.
  function SkipBlanks(s: string, from: nat, end: nat): (i: nat)
    requires from <= end <= |s|
    ensures from <= i <= end
    ensures i < end ==> !IsBlank(s[i])
    decreases end - from
  {
    if from == end || !IsBlank(s[from]) then from else SkipBlanks(s, from + 1, end)
  }

  function DropBlanks(s: string, from: nat, end: nat): (i: nat)
    requires from <= end <= |s|
    ensures from <= i <= end
    ensures from < i ==> !IsBlank(s[i - 1])
  {
    if from == end || !IsBlank(s[end - 1]) then end else DropBlanks(s, from, end - 1)
  }

  /** Trim applied to the characters from position `from` up to `end`. */
  function TrimRange(s: string, from: nat, end: nat): (r: string)
    requires from <= end <= |s|
    ensures |r| <= end - from
    ensures Trimmed(r)
  {
    var start := SkipBlanks(s, from, end);
    Substr(s, start, DropBlanks(s, start, end))
  }

  /** The file-local Trim: everything between the first and the last non-blank. */
  function Trim(s: string): (r: string)
    ensures |r| <= |s|
    ensures Trimmed(r)
  {
    TrimRange(s, 0, |s|)
  }

  lemma {:induction false} TrimOfTrimmed(s: string)
    requires Trimmed(s)
    ensures Trim(s) == s
  {
  }

  /** Where a `while (std::isspace(s[i])) ++i` loop stops. */
  function SkipSpaces(s: string, from: nat): (i: nat)
    requires from <= |s|
    ensures from <= i <= |s|
    ensures i < |s| ==> !IsSpace(s[i])
    decreases |s| - from
  {
    if from == |s| || !IsSpace(s[from]) then from else SkipSpaces(s, from + 1)
  }

  lemma {:induction false} SkipSpacesStops(s: string, from: nat, at: nat)
    requires from <= at < |s| && !IsSpace(s[at])
    ensures SkipSpaces(s, from) <= at
    decreases |s| - from
  {
    if from < at && IsSpace(s[from]) {
      SkipSpacesStops(s, from + 1, at);
    }
  }

  /** What a loop of std::getline(ss, item, ',') yields: a final empty item does not appear. */
  function GetLines(s: string): (items: seq<string>)
    ensures forall item <- items :: ',' !in item
    decreases |s|
  {
    if s == "" then []
    else
      FindSkips(s, ',', 0);
      var i := Find(s, ',', 0);
      if i == |s| then [s] else [s[..i]] + GetLines(s[i + 1..])
  }

  /** fmt::join(items, ","). */
  function Join(items: seq<string>): string {
    if |items| == 0 then ""
    else if |items| == 1 then items[0]
    else items[0] + "," + Join(items[1..])
  }

  lemma {:induction false} ConcatAssociative(a: string, b: string, c: string)
    ensures a + (b + c) == a + b + c
  {
  }

  /** `piece` stands in `s` at position `pos`. */
  predicate At(s: string, pos: nat, piece: string) {
    pos + |piece| <= |s| && forall i :: 0 <= i < |piece| ==> s[pos + i] == piece[i]
  }

  lemma {:induction false} AtSplit(s: string, pos: nat, a: string, b: string)
    requires At(s, pos, a + b)
    ensures At(s, pos, a) && At(s, pos + |a|, b)
  {
    assert forall i :: 0 <= i < |a| ==> (a + b)[i] == a[i];
    forall i | 0 <= i < |b| ensures s[pos + |a| + i] == b[i] {
      assert (a + b)[|a| + i] == b[i];
    }
  }

  lemma {:induction false} AtSlice(s: string, pos: nat, piece: string)
    requires At(s, pos, piece)
    ensures Substr(s, pos, pos + |piece|) == piece
  {
  }

  /** Trimming a piece in place gives the piece back exactly when it is trimmed. */
  lemma {:induction false} TrimAt(s: string, pos: nat, piece: string)
    requires At(s, pos, piece)
    ensures TrimRange(s, pos, pos + |piece|) == piece <==> Trimmed(piece)
  {
    if piece != "" {
      assert s[pos] == piece[0] && s[pos + |piece| - 1] == piece[|piece| - 1];
    }
    AtSlice(s, pos, piece);
  }

  /** Trimming a piece in place is trimming the piece. */
  lemma {:induction false} TrimPiece(s: string, pos: nat, piece: string)
    requires At(s, pos, piece)
    ensures TrimRange(s, pos, pos + |piece|) == Trim(piece)
  {
    SkipBlanksAt(s, pos, piece, 0);
    var start := SkipBlanks(piece, 0, |piece|);
    DropBlanksAt(s, pos, piece, start, |piece|);
  }

  lemma {:induction false} SkipBlanksAt(s: string, pos: nat, piece: string, from: nat)
    requires At(s, pos, piece) && from <= |piece|
    ensures SkipBlanks(s, pos + from, pos + |piece|) == pos + SkipBlanks(piece, from, |piece|)
    decreases |piece| - from
  {
    if from < |piece| {
      assert s[pos + from] == piece[from];
      SkipBlanksAt(s, pos, piece, from + 1);
    }
  }

  lemma {:induction false} DropBlanksAt(s: string, pos: nat, piece: string, from: nat, end: nat)
    requires At(s, pos, piece) && from <= end <= |piece|
    ensures DropBlanks(s, pos + from, pos + end) == pos + DropBlanks(piece, from, end)
  {
    if from < end {
      assert s[pos + end - 1] == piece[end - 1];
      DropBlanksAt(s, pos, piece, from, end - 1);
    }
  }

  /** The search for `c` steps over a piece without it and stops right behind. */
  lemma {:induction false} FindAfterPiece(s: string, pos: nat, piece: string, c: char, from: nat)
    requires At(s, pos, piece) && c !in piece && pos <= from <= pos + |piece|
    requires pos + |piece| == |s| || s[pos + |piece|] == c
    ensures Find(s, c, from) == pos + |piece|
  {
    FindSkips(s, c, from);
    forall k | from <= k < pos + |piece| ensures s[k] != c {
      assert piece[k - pos] in piece;
    }
  }

  lemma {:induction false} FindAtMost(s: string, c: char, from: nat, at: nat)
    requires from <= at < |s| && s[at] == c
    ensures Find(s, c, from) <= at
  {
    FindSkips(s, c, from);
  }

  lemma {:induction false} FindFirst(s: string, c: char, i: nat)
    requires i < |s| && s[i] == c
    requires forall j :: 0 <= j < i ==> s[j] != c
    ensures Find(s, c, 0) == i
  {
    FindSkips(s, c, 0);
  }

  lemma {:induction false} GetLinesCons(head: string, tail: string)
    requires ',' !in head
    ensures GetLines(head + "," + tail) == [head] + GetLines(tail)
  {
    var s := head + "," + tail;
    FindFirst(s, ',', |head|);
    assert s[..|head|] == head && s[|head| + 1..] == tail;
  }

  function WithoutEmptyLast(items: seq<string>): seq<string> {
    if items != [] && items[|items| - 1] == "" then items[..|items| - 1] else items
  }

  /** Splitting undoes joining, except for a trailing empty item, which getline never reports. */
  lemma {:induction false} GetLinesOfJoin(items: seq<string>)
    requires forall k :: 0 <= k < |items| ==> ',' !in items[k]
    ensures GetLines(Join(items)) == WithoutEmptyLast(items)
  {
    if |items| > 1 {
      GetLinesCons(items[0], Join(items[1..]));
      GetLinesOfJoin(items[1..]);
    }
  }
}
