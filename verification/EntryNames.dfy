/** The comma-separated list of percent-encoded entry names in the x-reduct-entries header. */
module EntryNames {
  import opened Wrappers
  import opened Text
  import opened Numbers

  /** A token character of section 5.6.2 of RFC 9110, which is what EncodeEntryName lets through. */
  predicate IsToken(c: char) {
    || IsDigit(c) || 'A' <= c <= 'Z' || 'a' <= c <= 'z'
    || c == '!' || c == '#' || c == '$' || c == '%' || c == '&' || c == '\'' || c == '*' || c == '+'
    || c == '-' || c == '.' || c == '^' || c == '_' || c == '`' || c == '|' || c == '~'
  }

  predicate AllTokens(s: string) {
    forall i :: 0 <= i < |s| ==> IsToken(s[i])
  }

  function Escape(c: char): string
    requires c as int < 256
  {
    ['%', UpperHex(c as int / 16), UpperHex(c as int % 16)]
  }

  /** A byte as it is, or as a percent escape of section 2.1 of RFC 3986. */
  function EncodeChar(c: char): string
    requires c as int < 256
  {
    if IsToken(c) then [c] else Escape(c)
  }

  function EncodeName(s: string): (e: string)
    requires IsBytes(s)
    ensures e == "" <==> s == ""
  {
    if s == "" then "" else EncodeChar(s[0]) + EncodeName(s[1..])
  }

  method EncodeEntryName(entry: string) returns (encoded: string)
    requires IsBytes(entry)
    ensures encoded == EncodeName(entry)
  {
    encoded := "";
    assert entry[0..] == entry;
    for i := 0 to |entry|
      invariant encoded + EncodeName(entry[i..]) == EncodeName(entry)
    {
      assert entry[i..][1..] == entry[i + 1..];
      ConcatAssociative(encoded, EncodeChar(entry[i]), EncodeName(entry[i + 1..]));
      if IsToken(entry[i]) {
        encoded := encoded + [entry[i]];
      } else {
        encoded := encoded + Escape(entry[i]);
      }
    }
  }

  /** static_cast<char> of a parsed escape. */
  function ToChar(v: int): char {
    (v % 256) as char
  }

  function Prepend(head: string, tail: Option<string>): Option<string> {
    if tail.None? then None else Some(head + tail.value)
  }

  function DecodeName(s: string): Option<string> {
    if s == "" then Some("")
    else if s[0] != '%' then Prepend([s[0]], DecodeName(s[1..]))
    else if |s| <= 2 then None
    else
      var v := StoIHex(s[1], s[2]);
      if v.None? then None else Prepend([ToChar(v.value)], DecodeName(s[3..]))
  }

  lemma {:induction false} PrependTwice(a: string, b: string, tail: Option<string>)
    ensures Prepend(a, Prepend(b, tail)) == Prepend(a + b, tail)
  {
    if tail.Some? {
      assert a + (b + tail.value) == a + b + tail.value;
    }
  }

  lemma {:induction false} PrependNothing(tail: Option<string>)
    ensures Prepend("", tail) == tail
  {
    if tail.Some? {
      assert "" + tail.value == tail.value;
    }
  }

  method DecodeEntryName(encoded: string) returns (decoded: Option<string>)
    ensures decoded == DecodeName(encoded)
  {
    var out := "";
    var i := 0;
    assert encoded[0..] == encoded;
    PrependNothing(DecodeName(encoded));
    while i < |encoded|
      invariant i <= |encoded|
      invariant DecodeName(encoded) == Prepend(out, DecodeName(encoded[i..]))
    {
      var rest := encoded[i..];
      if encoded[i] == '%' {
        if i + 2 >= |encoded| {
          return None;
        }
        assert rest[3..] == encoded[i + 3..];
        var value := StoIHex(encoded[i + 1], encoded[i + 2]);
        if value.None? {
          return None;
        }
        PrependTwice(out, [ToChar(value.value)], DecodeName(encoded[i + 3..]));
        out := out + [ToChar(value.value)];
        i := i + 3;
      } else {
        assert rest[1..] == encoded[i + 1..];
        PrependTwice(out, [encoded[i]], DecodeName(encoded[i + 1..]));
        out := out + [encoded[i]];
        i := i + 1;
      }
    }
    assert encoded[i..] == "" && out + "" == out;
    return Some(out);
  }

  /** What one item of the list contributes: nothing when it is blank or does not decode. */
  function DecodedItem(item: string): seq<string> {
    if Trim(item) == "" then []
    else
      var name := DecodeName(Trim(item));
      if name.Some? then [name.value] else []
  }

  function DecodedItems(items: seq<string>): (names: seq<string>)
    ensures |names| <= |items|
  {
    if items == [] then [] else DecodedItem(items[0]) + DecodedItems(items[1..])
  }

  function EncodedList(raw: string): seq<string> {
    DecodedItems(GetLines(raw))
  }

  lemma {:induction false} NamesAssociative(a: seq<string>, b: seq<string>, c: seq<string>)
    ensures a + (b + c) == a + b + c
    ensures a + [] == a
  {
  }

  method ParseEncodedList(raw: string) returns (items: seq<string>)
    ensures items == EncodedList(raw)
  {
    items := [];
    var lines := GetLines(raw);
    assert lines[0..] == lines;
    for k := 0 to |lines|
      invariant items + DecodedItems(lines[k..]) == DecodedItems(lines)
    {
      assert lines[k..][1..] == lines[k + 1..];
      NamesAssociative(items, DecodedItem(lines[k]), DecodedItems(lines[k + 1..]));
      var item := Trim(lines[k]);
      if item != "" {
        var decoded := DecodeEntryName(item);
        if decoded.Some? {
          items := items + [decoded.value];
        }
      }
    }
  }

  // ---- One name ----

  /** Encoded names use only token characters; in particular no commas and no blanks. */
  lemma {:induction false} EncodedIsToken(s: string)
    requires IsBytes(s)
    ensures AllTokens(EncodeName(s))
  {
    if s != "" {
      EncodedIsToken(s[1..]);
    }
  }

  lemma {:induction false} EncodeTail(s: string, k: nat)
    requires IsBytes(s) && k < |s|
    ensures EncodeName(s[k..]) == EncodeChar(s[k]) + EncodeName(s[k + 1..])
  {
    assert s[k..][1..] == s[k + 1..];
  }

  lemma {:induction false} DecodePlain(c: char, rest: string)
    requires c != '%'
    ensures DecodeName([c] + rest) == Prepend([c], DecodeName(rest))
  {
    assert ([c] + rest)[1..] == rest;
  }

  lemma {:induction false} DecodeStep(s: string, v: int)
    requires |s| > 2 && s[0] == '%' && StoIHex(s[1], s[2]) == Some(v)
    ensures DecodeName(s) == Prepend([ToChar(v)], DecodeName(s[3..]))
  {
  }

  lemma {:induction false} DecodeEscape(c: char, rest: string)
    requires c as int < 256
    ensures DecodeName(Escape(c) + rest) == Prepend([c], DecodeName(rest))
  {
    var h, l := UpperHex(c as int / 16), UpperHex(c as int % 16);
    var s := Escape(c) + rest;
    assert s[3..] == rest;
    DecodeStep(s, c as int);
  }

  lemma {:induction false} DecodeEncodedChar(s: string)
    requires IsBytes(s) && s != "" && s[0] != '%'
    ensures DecodeName(EncodeName(s)) == Prepend([s[0]], DecodeName(EncodeName(s[1..])))
  {
    if IsToken(s[0]) {
      DecodePlain(s[0], EncodeName(s[1..]));
    } else {
      DecodeEscape(s[0], EncodeName(s[1..]));
    }
  }

  lemma {:induction false} DecodePercentPercent(tail: string)
    ensures DecodeName("%%" + tail) == None
  {
    var s := "%%" + tail;
    assert s[0] == '%' && s[1] == '%';
  }

  /** A literal percent sign before anything but a plain token character does not decode. */
  lemma {:induction false} DecodePercentBeforePercent(s: string)
    requires IsBytes(s) && |s| >= 2 && s[0] == '%'
    requires s[1] == '%' || !IsToken(s[1])
    ensures DecodeName(EncodeName(s)) == None
  {
    EncodeTail(s, 1);
    DecodePercentPercent(EncodeChar(s[1])[1..] + EncodeName(s[2..]));
    assert EncodeName(s) == "%%" + (EncodeChar(s[1])[1..] + EncodeName(s[2..]));
  }

  /** Before two plain characters it swallows both, and leaves one character in their place. */
  lemma {:induction false} DecodePercentBeforeTwo(s: string)
    requires IsBytes(s) && |s| >= 3 && s[0] == '%'
    requires s[1] != '%' && IsToken(s[1]) && IsToken(s[2])
    ensures var d := DecodeName(EncodeName(s)); var r := DecodeName(EncodeName(s[3..]));
            d.Some? ==> r.Some? && |d.value| == 1 + |r.value|
  {
    var e := EncodeName(s);
    EncodeTail(s, 1);
    EncodeTail(s, 2);
    assert e == "%" + ([s[1]] + ([s[2]] + EncodeName(s[3..])));
    assert e[3..] == EncodeName(s[3..]);
  }

  lemma {:induction false} DecodeTwoPlain(h: char, l: char, tail: string)
    requires h != '%' && l != '%'
    ensures DecodeName([h] + ([l] + tail)) == Prepend([h] + [l], DecodeName(tail))
  {
    DecodePlain(h, [l] + tail);
    DecodePlain(l, tail);
    PrependTwice([h], [l], DecodeName(tail));
  }

  /** An escape with one digit, if that, stands for a character below sixteen. */
  lemma {:induction false} DecodeHalfEscape(s: string) returns (x: char)
    requires |s| > 2 && s[0] == '%' && !IsSpace(s[1]) && s[2] == '%'
    ensures x != '%' && (DecodeName(s) == None || DecodeName(s) == Prepend([x], DecodeName(s[3..])))
  {
    if IsHex(s[1]) {
      x := ToChar(HexValue(s[1]));
      DecodeStep(s, HexValue(s[1]));
    } else {
      x := 'a';
      assert StoIHex(s[1], s[2]) == None;
    }
  }

  lemma {:induction false} DecodeBrokenEscape(c: char, h: char, l: char, tail: string)
    requires !IsSpace(c) && h != '%' && l != '%'
    ensures var d := DecodeName("%" + [c] + "%" + [h] + [l] + tail); var r := DecodeName(tail);
            d.Some? ==> r.Some? && |d.value| == 3 + |r.value| && d.value[0] != '%'
  {
    var s := "%" + [c] + "%" + [h] + [l] + tail;
    assert s[0] == '%' && s[1] == c && s[2] == '%';
    assert s[3..] == [h] + ([l] + tail);
    var x := DecodeHalfEscape(s);
    DecodeTwoPlain(h, l, tail);
  }

  /** Before one plain character and an escape it takes the escape apart, and the two digits stand alone. */
  lemma {:induction false} DecodePercentBeforeEscape(s: string)
    requires IsBytes(s) && |s| >= 3 && s[0] == '%'
    requires s[1] != '%' && IsToken(s[1]) && !IsToken(s[2])
    ensures var d := DecodeName(EncodeName(s)); var r := DecodeName(EncodeName(s[3..]));
            d.Some? ==> r.Some? && |d.value| == 3 + |r.value| && d.value[0] != '%'
  {
    var tail := EncodeName(s[3..]);
    var h, l := UpperHex(s[2] as int / 16), UpperHex(s[2] as int % 16);
    EncodeTail(s, 1);
    EncodeTail(s, 2);
    assert EncodeName(s) == "%" + ([s[1]] + (Escape(s[2]) + tail));
    assert EncodeName(s) == "%" + [s[1]] + "%" + [h] + [l] + tail;
    DecodeBrokenEscape(s[1], h, l, tail);
  }

  lemma {:induction false} DecodedNotLonger(s: string)
    requires IsBytes(s)
    ensures var d := DecodeName(EncodeName(s)); d.Some? ==> |d.value| <= |s|
    ensures s != "" && s[0] == '%' ==> DecodeName(EncodeName(s)) != Some(s)
    decreases |s|
  {
    if s != "" && s[0] != '%' {
      DecodedNotLonger(s[1..]);
      DecodeEncodedChar(s);
    } else if |s| >= 2 && (s[1] == '%' || !IsToken(s[1])) {
      DecodePercentBeforePercent(s);
    } else if |s| >= 3 {
      DecodedNotLonger(s[3..]);
      if IsToken(s[2]) {
        DecodePercentBeforeTwo(s);
      } else {
        DecodePercentBeforeEscape(s);
      }
    } else {
      assert |s| == 2 ==> s[1..][1..] == "";
      assert |EncodeName(s)| <= 2;
    }
  }

  /** A name survives encoding and decoding exactly when it has no percent sign. */
  lemma {:induction false} NameRoundTrip(s: string)
    requires IsBytes(s)
    ensures DecodeName(EncodeName(s)) == Some(s) <==> '%' !in s
  {
    if s != "" {
      if s[0] == '%' {
        DecodedNotLonger(s);
      } else {
        assert s == [s[0]] + s[1..];
        NameRoundTrip(s[1..]);
        DecodeEncodedChar(s);
        var d := DecodeName(EncodeName(s[1..]));
        if d.Some? {
          assert ([s[0]] + d.value)[1..] == d.value;
        }
      }
    }
  }

  /** Letters, digits and these fifteen: the token characters of section 5.6.2 of RFC 9110. */
  predicate IsTchar(c: char) {
    '0' <= c <= '9' || 'A' <= c <= 'Z' || 'a' <= c <= 'z' || c in "!#$%&'*+-.^_`|~"
  }

  lemma {:induction false} TokenIsTchar(c: char)
    ensures IsToken(c) <==> IsTchar(c)
  {
    var marks := "!#$%&'*+-.^_`|~";
    assert marks[0] == '!' && marks[1] == '#' && marks[2] == '$' && marks[3] == '%' && marks[4] == '&';
    assert marks[5] == '\'' && marks[6] == '*' && marks[7] == '+' && marks[8] == '-' && marks[9] == '.';
    assert marks[10] == '^' && marks[11] == '_' && marks[12] == '`' && marks[13] == '|' && marks[14] == '~';
  }

  /** A name is sent as it is exactly when all its bytes are token characters. */
  lemma {:induction false} TokensStay(name: string)
    requires IsBytes(name)
    ensures |EncodeName(name)| >= |name|
    ensures EncodeName(name) == name <==> forall i :: 0 <= i < |name| ==> IsTchar(name[i])
  {
    if name != "" {
      TokensStay(name[1..]);
      TokenIsTchar(name[0]);
      var e, rest := EncodeName(name), EncodeName(name[1..]);
      assert name == [name[0]] + name[1..];
      if IsTchar(name[0]) {
        assert e[1..] == rest;
        assert (forall i :: 0 <= i < |name| ==> IsTchar(name[i]))
            <==> forall i :: 0 <= i < |name[1..]| ==> IsTchar(name[1..][i]);
      }
    }
  }

  // ---- Other spellings of a name ----

  /** A hexadecimal digit in either case, as section 2.1 of RFC 3986 allows it. */
  predicate IsDigitFor(d: char, n: nat)
    requires n < 16
  {
    d == "0123456789ABCDEF"[n] || d == "0123456789abcdef"[n]
  }

  /** Every byte of a name as it is, unless it is a percent sign, or escaped with digits of either case. */
  predicate Spells(encoded: string, name: string)
    requires IsBytes(name)
    decreases |name|
  {
    if name == "" || encoded == "" then encoded == name
    else if encoded[0] != '%' then encoded[0] == name[0] && Spells(encoded[1..], name[1..])
    else
      && |encoded| > 2
      && IsDigitFor(encoded[1], name[0] as int / 16) && IsDigitFor(encoded[2], name[0] as int % 16)
      && Spells(encoded[3..], name[1..])
  }

  lemma {:induction false} DigitForValue(d: char, n: nat)
    requires n < 16 && IsDigitFor(d, n)
    ensures IsHex(d) && HexValue(d) == n
  {
    assert "0123456789ABCDEF"[n] == if n < 10 then ('0' as int + n) as char else ('A' as int + n - 10) as char;
    assert "0123456789abcdef"[n] == if n < 10 then ('0' as int + n) as char else ('a' as int + n - 10) as char;
  }

  lemma {:induction false} EscapeSpells(encoded: string, c: char)
    requires c as int < 256 && |encoded| > 2 && encoded[0] == '%'
    requires IsDigitFor(encoded[1], c as int / 16) && IsDigitFor(encoded[2], c as int % 16)
    ensures DecodeName(encoded) == Prepend([c], DecodeName(encoded[3..]))
  {
    DigitForValue(encoded[1], c as int / 16);
    DigitForValue(encoded[2], c as int % 16);
    DecodeStep(encoded, c as int);
  }

  /** A name is decoded from any spelling; in particular escapes in lower case stand for what those in upper case do. */
  lemma {:induction false} SpellingDecodes(encoded: string, name: string)
    requires IsBytes(name) && Spells(encoded, name)
    ensures DecodeName(encoded) == Some(name)
    decreases |name|
  {
    if name != "" {
      assert name == [name[0]] + name[1..];
      if encoded[0] != '%' {
        SpellingDecodes(encoded[1..], name[1..]);
      } else {
        EscapeSpells(encoded, name[0]);
        SpellingDecodes(encoded[3..], name[1..]);
      }
    }
  }

  /**
   Escapes that are none are decoded too: a digit before something else stands for itself, and so does one behind white
   space or a plus sign; a minus sign in front counts down from 256.
   */
  lemma {:induction false} OddEscapes(d: char, n: nat, other: char, rest: string)
    requires n < 16 && IsDigitFor(d, n) && !IsHex(other)
    ensures DecodeName(['%', d, other] + rest) == Prepend([n as char], DecodeName(rest))
    ensures DecodeName(['%', other, d] + rest)
            == if other == ' ' || 9 <= other as int <= 13 || other == '+' then Prepend([n as char], DecodeName(rest))
               else if other == '-' then Prepend([((256 - n) % 256) as char], DecodeName(rest))
               else None
  {
    DigitForValue(d, n);
    var a, b := ['%', d, other] + rest, ['%', other, d] + rest;
    assert a[3..] == rest && b[3..] == rest;
  }

  /** The encoder writes one of these spellings, with digits in upper case, unless the name has a percent sign. */
  lemma {:induction false} EncoderSpells(name: string)
    requires IsBytes(name) && '%' !in name
    ensures Spells(EncodeName(name), name)
  {
    if name != "" {
      EncoderSpells(name[1..]);
      var e := EncodeName(name);
      if IsToken(name[0]) {
        assert e[1..] == EncodeName(name[1..]);
      } else {
        UpperIsDigitFor(name[0] as int / 16);
        UpperIsDigitFor(name[0] as int % 16);
        assert e[3..] == EncodeName(name[1..]);
      }
    }
  }

  lemma {:induction false} UpperIsDigitFor(n: nat)
    requires n < 16
    ensures UpperHex(n) == "0123456789ABCDEF"[n]
  {
  }

  // ---- The list ----

  predicate AllBytes(names: seq<string>) {
    forall k :: 0 <= k < |names| ==> IsBytes(names[k])
  }

  function EncodeAll(names: seq<string>): (items: seq<string>)
    requires AllBytes(names)
    ensures |items| == |names|
    ensures forall k :: 0 <= k < |names| ==> items[k] == EncodeName(names[k])
  {
    seq(|names|, k requires 0 <= k < |names| => EncodeName(names[k]))
  }

  lemma {:induction false} DecodedItemsDropLast(items: seq<string>)
    requires items != [] && items[|items| - 1] == ""
    ensures DecodedItems(items[..|items| - 1]) == DecodedItems(items)
  {
    if |items| > 1 {
      assert items[..|items| - 1][1..] == items[1..][..|items| - 2];
      DecodedItemsDropLast(items[1..]);
    } else {
      assert items[1..] == [] && items[..0] == [];
    }
  }

  /** Encoded names are free of commas and blanks, so the list splits where it was joined. */
  lemma {:induction false} ListSplits(names: seq<string>)
    requires AllBytes(names)
    ensures EncodedList(Join(EncodeAll(names))) == DecodedItems(EncodeAll(names))
  {
    var items := EncodeAll(names);
    forall k | 0 <= k < |items| ensures ',' !in items[k] {
      EncodedIsToken(names[k]);
    }
    GetLinesOfJoin(items);
    if items != [] && items[|items| - 1] == "" {
      DecodedItemsDropLast(items);
    }
  }

  predicate GoodName(name: string) {
    name != "" && '%' !in name
  }

  predicate GoodNames(names: seq<string>) {
    forall k :: 0 <= k < |names| ==> GoodName(names[k])
  }

  lemma {:induction false} TrimEncoded(name: string)
    requires IsBytes(name)
    ensures Trim(EncodeName(name)) == EncodeName(name)
  {
    EncodedIsToken(name);
    TrimOfTrimmed(EncodeName(name));
  }

  lemma {:induction false} DecodedItemOfEncoded(name: string)
    requires IsBytes(name)
    ensures DecodedItem(EncodeName(name)) == [name] <==> GoodName(name)
    ensures |DecodedItem(EncodeName(name))| <= 1
  {
    TrimEncoded(name);
    NameRoundTrip(name);
  }

  lemma {:induction false} DecodedItemsOfEncoded(names: seq<string>)
    requires AllBytes(names)
    ensures DecodedItems(EncodeAll(names)) == names <==> GoodNames(names)
  {
    if names != [] {
      var items := EncodeAll(names);
      assert items[1..] == EncodeAll(names[1..]);
      assert names == [names[0]] + names[1..];
      DecodedItemsOfEncoded(names[1..]);
      DecodedItemOfEncoded(names[0]);
      var first, rest := DecodedItem(items[0]), DecodedItems(items[1..]);
      assert GoodNames(names) <==> GoodName(names[0]) && GoodNames(names[1..]);
      if first + rest == names {
        assert |first| == 1;
        assert first[0] == (first + rest)[0];
        assert rest == (first + rest)[1..];
      }
    }
  }

  /**
   Decoding the header gives back the list of names, at the same indices, exactly when every
   name is non-empty and free of percent signs.
   */
  lemma {:induction false} EntryListRoundTrip(names: seq<string>)
    requires AllBytes(names)
    ensures EncodedList(Join(EncodeAll(names))) == names <==> GoodNames(names)
  {
    ListSplits(names);
    DecodedItemsOfEncoded(names);
  }
}
