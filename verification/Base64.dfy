/** The base64 codec of utils/base64.cpp (section 4 of RFC 4648). */
module Base64 {
  import opened Bytes
  import opened Arithmetic

  /** The two alphabets differ in their last two characters. */
  function CharAt(i: nat, url: bool): char
    requires i < 64
  {
    if i < 26 then 'A' + i as char
    else if i < 52 then 'a' + (i - 26) as char
    else if i < 62 then '0' + (i - 52) as char
    else if i == 62 then (if url then '-' else '+')
    else if url then '_' else '/'
  }

  /** `pos_of_char`, which throws on a character of neither alphabet. */
  function PosOfChar(c: char): (r: Result<nat>)
    ensures r.Ok? ==> r.value < 64
  {
    if 'A' <= c <= 'Z' then Ok(c as int - 'A' as int)
    else if 'a' <= c <= 'z' then Ok(c as int - 'a' as int + ('Z' as int - 'A' as int) + 1)
    else if '0' <= c <= '9' then
      Ok(c as int - '0' as int + ('Z' as int - 'A' as int) + ('z' as int - 'a' as int) + 2)
    else if c == '+' || c == '-' then Ok(62)
    else if c == '/' || c == '_' then Ok(63)
    else Err("Input is not valid base64-encoded data.")
  }

  function Trailing(url: bool): char {
    if url then '.' else '='
  }

  predicate IsTrailing(c: char) {
    c == '=' || c == '.'
  }

  lemma PosOfCharAt(i: nat, url: bool)
    requires i < 64
    ensures PosOfChar(CharAt(i, url)) == Ok(i)
    ensures !IsTrailing(CharAt(i, url)) && CharAt(i, url) != '\n'
  {
    if i < 26 {
      assert CharAt(i, url) as int == 'A' as int + i;
    } else if i < 52 {
      assert CharAt(i, url) as int == 'a' as int + (i - 26);
    } else if i < 62 {
      assert CharAt(i, url) as int == '0' as int + (i - 52);
    }
  }

  const UPPER_CASE := "ABCDEFGHIJKLMNOPQRSTUVWXYZ"
  const LOWER_CASE := "abcdefghijklmnopqrstuvwxyz"
  const DIGITS := "0123456789"

  /** The alphabets of sections 4 and 5 of RFC 4648. */
  const ALPHABET := UPPER_CASE + LOWER_CASE + DIGITS + "+/"
  const URL_ALPHABET := UPPER_CASE + LOWER_CASE + DIGITS + "-_"

  lemma LetterAt(i: nat)
    requires i < 26
    ensures UPPER_CASE[i] == 'A' + i as char && LOWER_CASE[i] == 'a' + i as char
  {
    if i < 13 {
      assert i in {0, 1, 2, 3, 4, 5, 6, 7, 8, 9, 10, 11, 12};
    } else {
      assert i in {13, 14, 15, 16, 17, 18, 19, 20, 21, 22, 23, 24, 25};
    }
  }

  lemma DigitAt(i: nat)
    requires i < 10
    ensures DIGITS[i] == '0' + i as char
  {
    assert i in {0, 1, 2, 3, 4, 5, 6, 7, 8, 9};
  }

  lemma AlphabetAt(i: nat)
    requires i < 64
    ensures ALPHABET[i] == CharAt(i, false) && URL_ALPHABET[i] == CharAt(i, true)
  {
    if i < 26 {
      LetterAt(i);
    } else if i < 52 {
      LetterAt(i - 26);
    } else if i < 62 {
      DigitAt(i - 52);
    } else {
      assert i == 62 || i == 63;
    }
  }

  /** The flag selects the alphabet and the padding of the source; both alphabets are read. */
  lemma CharsOfAlphabet(i: nat, url: bool)
    requires i < 64
    ensures CharAt(i, url) == (if url then URL_ALPHABET else ALPHABET)[i]
    ensures PosOfChar(ALPHABET[i]) == PosOfChar(URL_ALPHABET[i]) == Ok(i)
    ensures Trailing(url) == (if url then '.' else '=')
  {
    hide PosOfChar, CharAt;
    AlphabetAt(i);
    PosOfCharAt(i, false);
    PosOfCharAt(i, true);
  }

  /** Nothing else is read. */
  lemma OtherCharsRefused(c: char)
    requires c !in ALPHABET && c !in URL_ALPHABET
    ensures PosOfChar(c) == Err("Input is not valid base64-encoded data.")
  {
    var p := PosOfChar(c);
    if p.Ok? {
      CharsOfAlphabet(p.value, false);
      CharsOfAlphabet(p.value, true);
      PosIsOfChar(c);
      assert false;
    }
  }

  lemma PosIsOfChar(c: char)
    requires PosOfChar(c).Ok?
    ensures c == CharAt(PosOfChar(c).value, false) || c == CharAt(PosOfChar(c).value, true)
  {
  }

  // ---------------------------------------------------------------------------------------------
  // One group: up to three bytes, four characters
  // ---------------------------------------------------------------------------------------------

  function EncodeGroup(b: seq<Byte>, url: bool): (s: string)
    requires 1 <= |b| <= 3
    ensures |s| == 4
  {
    var c0 := CharAt(b[0] / 4, url);
    if |b| == 1 then
      [c0, CharAt(b[0] % 4 * 16, url), Trailing(url), Trailing(url)]
    else
      var c1 := CharAt(b[0] % 4 * 16 + b[1] / 16, url);
      if |b| == 2 then
        [c0, c1, CharAt(b[1] % 16 * 4, url), Trailing(url)]
      else
        [c0, c1, CharAt(b[1] % 16 * 4 + b[2] / 64, url), CharAt(b[2] % 64, url)]
  }

  /** Decodes the group that starts at `s`; a character that is missing reads as the terminating NUL. */
  function DecodeGroup(s: string): (r: Result<seq<Byte>>)
    requires s != []
  {
    var p1 := PosOfChar(if 1 < |s| then s[1] else '\0');
    var p0 := PosOfChar(s[0]);
    if p1.Err? then Err(p1.what)
    else if p0.Err? then Err(p0.what)
    else
      var first: Byte := p0.value * 4 + p1.value / 16 % 4;
      if !(2 < |s| && !IsTrailing(s[2])) then Ok([first])
      else
        var p2 := PosOfChar(s[2]);
        if p2.Err? then Err(p2.what)
        else
          var second: Byte := p1.value % 16 * 16 + p2.value / 4;
          if !(3 < |s| && !IsTrailing(s[3])) then Ok([first, second])
          else
            var p3 := PosOfChar(s[3]);
            if p3.Err? then Err(p3.what)
            else
              var third: Byte := p2.value % 4 * 64 + p3.value;
              Ok([first, second, third])
  }

  lemma GroupRoundTrip(b: seq<Byte>, url: bool)
    requires 1 <= |b| <= 3
    ensures DecodeGroup(EncodeGroup(b, url)) == Ok(b)
  {
    hide CharAt, PosOfChar, DecodeGroup, EncodeGroup;
    if |b| == 1 {
      assert b == [b[0]];
      OneByte(b[0], url);
    } else if |b| == 2 {
      assert b == [b[0], b[1]];
      TwoBytes(b[0], b[1], url);
    } else {
      assert b == [b[0], b[1], b[2]];
      ThreeBytes(b[0], b[1], b[2], url);
    }
  }

  lemma OneByte(x: Byte, url: bool)
    ensures DecodeGroup(EncodeGroup([x], url)) == Ok([x])
  {
    hide CharAt, PosOfChar;
    PosOfCharAt(x / 4, url);
    PosOfCharAt(x % 4 * 16, url);
  }

  lemma TwoBytes(x: Byte, y: Byte, url: bool)
    ensures DecodeGroup(EncodeGroup([x, y], url)) == Ok([x, y])
  {
    hide CharAt, PosOfChar;
    PosOfCharAt(x / 4, url);
    PosOfCharAt(x % 4 * 16 + y / 16, url);
    PosOfCharAt(y % 16 * 4, url);
    Rejoined(x, y);
  }

  lemma ThreeBytes(x: Byte, y: Byte, z: Byte, url: bool)
    ensures DecodeGroup(EncodeGroup([x, y, z], url)) == Ok([x, y, z])
  {
    hide CharAt, PosOfChar;
    PosOfCharAt(x / 4, url);
    PosOfCharAt(x % 4 * 16 + y / 16, url);
    PosOfCharAt(y % 16 * 4 + z / 64, url);
    PosOfCharAt(z % 64, url);
    Rejoined(x, y);
    RejoinedLast(y, z);
  }

  lemma Rejoined(x: Byte, y: Byte)
    ensures x / 4 * 4 + (x % 4 * 16 + y / 16) / 16 % 4 == x
    ensures (x % 4 * 16 + y / 16) % 16 == y / 16
  {
  }

  lemma RejoinedLast(y: Byte, z: Byte)
    ensures y / 16 * 16 + (y % 16 * 4 + z / 64) / 4 == y
    ensures (y % 16 * 4 + z / 64) % 4 * 64 + z % 64 == z
  {
  }

  /** Section 4 of RFC 4648: the four characters spell the 24-bit number of the (zero-padded) group. */
  lemma GroupSpells24Bits(b: seq<Byte>, url: bool)
    requires 1 <= |b| <= 3
    ensures var b1, b2 := if |b| > 1 then b[1] as int else 0, if |b| > 2 then b[2] as int else 0;
      var n := b[0] as int * 0x1_0000 + b1 * 0x100 + b2;
      && EncodeGroup(b, url)[..|b| + 1] ==
         [CharAt(n / 0x4_0000, url), CharAt(n / 0x1000 % 64, url),
          CharAt(n / 64 % 64, url), CharAt(n % 64, url)][..|b| + 1]
      && forall i :: |b| < i < 4 ==> EncodeGroup(b, url)[i] == Trailing(url)
  {
    hide CharAt;
    var b1, b2 := if |b| > 1 then b[1] as int else 0, if |b| > 2 then b[2] as int else 0;
    Sextets(b[0], b1, b2);
  }

  lemma Sextets(b0: int, b1: int, b2: int)
    requires 0 <= b0 < 256 && 0 <= b1 < 256 && 0 <= b2 < 256
    ensures var n := b0 * 0x1_0000 + b1 * 0x100 + b2;
      && n / 0x4_0000 == b0 / 4
      && n / 0x1000 % 64 == b0 % 4 * 16 + b1 / 16
      && n / 64 % 64 == b1 % 16 * 4 + b2 / 64
      && n % 64 == b2 % 64
  {
    Digits64(b0 / 4, b0 % 4 * 16 + b1 / 16, b1 % 16 * 4 + b2 / 64, b2 % 64);
  }

  lemma Digits64(i0: nat, i1: nat, i2: nat, i3: nat)
    requires i0 < 64 && i1 < 64 && i2 < 64 && i3 < 64
    ensures var n := i0 * 0x4_0000 + i1 * 0x1000 + i2 * 64 + i3;
      n / 0x4_0000 == i0 && n / 0x1000 % 64 == i1 && n / 64 % 64 == i2 && n % 64 == i3
  {
    var n := i0 * 0x4_0000 + i1 * 0x1000 + i2 * 64 + i3;
    assert n / 64 == i0 * 0x1000 + i1 * 64 + i2;
    assert n / 0x1000 == i0 * 64 + i1;
  }

  // ---------------------------------------------------------------------------------------------
  // Whole strings
  // ---------------------------------------------------------------------------------------------

  function Encode(b: seq<Byte>, url: bool): string {
    if |b| == 0 then ""
    else if |b| <= 3 then EncodeGroup(b, url)
    else EncodeGroup(b[..3], url) + Encode(b[3..], url)
  }

  function Decode(s: string): Result<seq<Byte>> {
    if s == "" then Ok([])
    else
      var first := DecodeGroup(s);
      if first.Err? then first
      else if |s| <= 4 then first
      else
        var rest := Decode(s[4..]);
        if rest.Err? then rest else Ok(first.value + rest.value)
  }

  /** A full group reads no character past its fourth. */
  lemma DecodeGroupPrefix(s: string)
    requires |s| >= 4
    ensures DecodeGroup(s) == DecodeGroup(s[..4])
  {
  }

  /** Decoding inverts encoding in both alphabets, and the length is four characters a started triple. */
  lemma {:induction false} RoundTrip(b: seq<Byte>, url: bool)
    ensures Decode(Encode(b, url)) == Ok(b)
    ensures |Encode(b, url)| == 4 * CeilDiv(|b|, 3)
  {
    if |b| > 3 {
      var head, tail := EncodeGroup(b[..3], url), Encode(b[3..], url);
      RoundTrip(b[3..], url);
      GroupRoundTrip(b[..3], url);
      DecodeGroupPrefix(head + tail);
      assert (head + tail)[..4] == head && (head + tail)[4..] == tail;
      assert CeilDiv(|b|, 3) == CeilDiv(|b| - 3, 3) + 1;
      assert b[..3] + b[3..] == b;
    } else if |b| > 0 {
      GroupRoundTrip(b, url);
    }
  }

  /** How many padding characters the encoding ends with. */
  ghost function Padding(b: seq<Byte>): nat {
    (3 - |b| % 3) % 3
  }

  /** Padding may be left out, in part or altogether (RFC 2045). */
  lemma {:induction false} UnpaddedRoundTrip(b: seq<Byte>, url: bool, n: nat)
    requires n <= Padding(b)
    ensures n <= |Encode(b, url)| && Decode(Encode(b, url)[..|Encode(b, url)| - n]) == Ok(b)
    decreases |b|
  {
    hide EncodeGroup, DecodeGroup, Padding;
    if |b| > 3 {
      var head, tail := EncodeGroup(b[..3], url), Encode(b[3..], url);
      SamePadding(b);
      UnpaddedRoundTrip(b[3..], url, n);
      GroupRoundTrip(b[..3], url);
      TailNotEmpty(b[3..], url, n);
      var cut := tail[..|tail| - n];
      assert (head + tail)[..|head + tail| - n] == head + cut;
      DecodeAfterGroup(head, cut);
      assert b[..3] + b[3..] == b;
    } else if |b| > 0 {
      TailNotEmpty(b, url, n);
      UnpaddedGroup(b, url, n);
    } else {
      NothingPadded(b);
    }
  }

  lemma SamePadding(b: seq<Byte>)
    requires |b| > 3
    ensures Padding(b[3..]) == Padding(b)
  {
  }

  lemma NothingPadded(b: seq<Byte>)
    requires b == []
    ensures Padding(b) == 0
  {
  }

  lemma DecodeAfterGroup(head: string, rest: string)
    requires |head| == 4 && rest != "" && DecodeGroup(head).Ok? && Decode(rest).Ok?
    ensures Decode(head + rest) == Ok(DecodeGroup(head).value + Decode(rest).value)
  {
    hide DecodeGroup;
    DecodeGroupPrefix(head + rest);
    assert (head + rest)[..4] == head && (head + rest)[4..] == rest;
  }

  lemma TailNotEmpty(b: seq<Byte>, url: bool, n: nat)
    requires b != [] && n <= Padding(b)
    ensures |Encode(b, url)| > n
  {
    hide EncodeGroup;
  }

  lemma UnpaddedGroup(b: seq<Byte>, url: bool, n: nat)
    requires 1 <= |b| <= 3 && n <= Padding(b)
    ensures DecodeGroup(EncodeGroup(b, url)[..4 - n]) == Ok(b)
    ensures |EncodeGroup(b, url)[..4 - n]| <= 4 && EncodeGroup(b, url)[..4 - n] != ""
  {
    hide CharAt, PosOfChar;
    GroupRoundTrip(b, url);
    var whole := EncodeGroup(b, url);
    var s := whole[..4 - n];
    assert s[0] == whole[0] && s[1] == whole[1];
    PaddingIsTrailing(b, url);
  }

  lemma PaddingIsTrailing(b: seq<Byte>, url: bool)
    requires 1 <= |b| <= 3
    ensures forall i :: 4 - Padding(b) <= i < 4 ==> IsTrailing(EncodeGroup(b, url)[i])
    ensures Padding(b) == 3 - |b|
  {
    hide CharAt;
  }

  /** The encoding contains no line break. */
  lemma {:induction false} EncodeHasNoLineBreak(b: seq<Byte>, url: bool)
    ensures '\n' !in Encode(b, url)
  {
    if |b| > 3 {
      EncodeHasNoLineBreak(b[3..], url);
      GroupHasNoLineBreak(b[..3], url);
    } else if |b| > 0 {
      GroupHasNoLineBreak(b, url);
    }
  }

  lemma GroupHasNoLineBreak(b: seq<Byte>, url: bool)
    requires 1 <= |b| <= 3
    ensures '\n' !in EncodeGroup(b, url)
  {
    PosOfCharAt(b[0] / 4, url);
    PosOfCharAt(b[0] % 4 * 16, url);
    if |b| > 1 {
      PosOfCharAt(b[0] % 4 * 16 + b[1] / 16, url);
      PosOfCharAt(b[1] % 16 * 4, url);
    }
    if |b| > 2 {
      PosOfCharAt(b[1] % 16 * 4 + b[2] / 64, url);
      PosOfCharAt(b[2] % 64, url);
    }
  }

  // ---------------------------------------------------------------------------------------------
  // Line breaks
  // ---------------------------------------------------------------------------------------------

  function RemoveLineBreaks(s: string): string {
    if s == "" then ""
    else if s[0] == '\n' then RemoveLineBreaks(s[1..])
    else [s[0]] + RemoveLineBreaks(s[1..])
  }

  lemma {:induction false} RemoveLineBreaksConcat(s: string, t: string)
    ensures RemoveLineBreaks(s + t) == RemoveLineBreaks(s) + RemoveLineBreaks(t)
  {
    if s == "" {
      assert s + t == t;
    } else {
      assert (s + t)[1..] == s[1..] + t;
      RemoveLineBreaksConcat(s[1..], t);
    }
  }

  lemma {:induction false} NothingToRemove(s: string)
    requires '\n' !in s
    ensures RemoveLineBreaks(s) == s
  {
    if s != "" {
      NothingToRemove(s[1..]);
    }
  }

  /** Lines of `distance` characters, the last one shorter or full. */
  function WithLineBreaks(s: string, distance: nat): string
    requires distance > 0
  {
    if |s| <= distance then s
    else s[..distance] + "\n" + WithLineBreaks(s[distance..], distance)
  }

  lemma {:induction false} RemoveInsertedLineBreaks(s: string, distance: nat)
    requires distance > 0
    ensures RemoveLineBreaks(WithLineBreaks(s, distance)) == RemoveLineBreaks(s)
  {
    if |s| > distance {
      var line, rest := s[..distance], s[distance..];
      var broken := WithLineBreaks(rest, distance);
      RemoveInsertedLineBreaks(rest, distance);
      RemoveLineBreaksConcat(line, rest);
      RemoveLineBreaksConcat(line, "\n" + broken);
      assert s == line + rest;
      assert ("\n" + broken)[1..] == broken;
      assert line + "\n" + broken == line + ("\n" + broken);
    }
  }

  /** Where the characters and the line breaks are: line `k`, column `x`. */
  lemma {:induction false} LineBreaksAt(s: string, distance: nat, k: nat, x: nat)
    requires distance > 0 && x <= distance && k * distance + x < |s|
    ensures var r := WithLineBreaks(s, distance);
      && k * (distance + 1) + x < |r|
      && r[k * (distance + 1) + x] == if x == distance then '\n' else s[k * distance + x]
    decreases k
  {
    var r := WithLineBreaks(s, distance);
    if k > 0 {
      NextLine(k, distance);
      var rest := s[distance..];
      LineBreaksAt(rest, distance, k - 1, x);
      assert r == s[..distance] + "\n" + WithLineBreaks(rest, distance);
      assert rest[(k - 1) * distance + x] == s[k * distance + x];
    }
  }

  lemma NextLine(k: nat, n: nat)
    requires k > 0
    ensures k * n == (k - 1) * n + n && (k - 1) * n >= 0 && k * (n + 1) == (k - 1) * (n + 1) + n + 1
    ensures (k - 1) * (n + 1) >= 0
  {
  }

  /** One line break for every full line that is not the last. */
  lemma {:induction false} LineBreaksCounted(s: string, distance: nat, n: nat)
    requires distance > 0 && n * distance < |s| <= (n + 1) * distance
    ensures |WithLineBreaks(s, distance)| == |s| + n
    decreases n
  {
    if n > 0 {
      NextLine(n, distance);
      NextLine(n + 1, distance);
      LineBreaksCounted(s[distance..], distance, n - 1);
    }
  }

  /** `insert_linebreaks` */
  method InsertLineBreaks(str: string, distance: nat) returns (r: string)
    requires distance > 0
    ensures r == WithLineBreaks(str, distance)
  {
    if str == "" {
      return "";
    }
    r := str;
    var pos := distance;
    ghost var lines, rest := "", str;
    assert lines + WithLineBreaks(rest, distance) == WithLineBreaks(str, distance);
    while pos < |r|
      invariant r == lines + rest && pos == |lines| + distance
      invariant lines + WithLineBreaks(rest, distance) == WithLineBreaks(str, distance)
      decreases |r| - pos
    {
      BreakStep(lines, rest, distance);
      r := r[..pos] + "\n" + r[pos..];
      pos := pos + distance + 1;
      lines, rest := lines + rest[..distance] + "\n", rest[distance..];
    }
  }

  lemma BreakStep(lines: string, rest: string, distance: nat)
    requires 0 < distance < |rest|
    ensures (lines + rest)[..|lines| + distance] == lines + rest[..distance]
    ensures (lines + rest)[|lines| + distance..] == rest[distance..]
    ensures lines + WithLineBreaks(rest, distance) ==
            lines + rest[..distance] + "\n" + WithLineBreaks(rest[distance..], distance)
  {
  }

  // ---------------------------------------------------------------------------------------------
  // The loops of the source
  // ---------------------------------------------------------------------------------------------

  /** One round of the encoding loop. */
  method EncodeGroupAt(bytes: seq<Byte>, pos: nat, url: bool) returns (quad: string)
    requires pos < |bytes|
    ensures quad == EncodeGroup(bytes[pos..Min(pos + 3, |bytes|)], url)
  {
    quad := [CharAt(bytes[pos] / 4, url)];
    if pos + 1 < |bytes| {
      quad := quad + [CharAt(bytes[pos] % 4 * 16 + bytes[pos + 1] / 16, url)];
      if pos + 2 < |bytes| {
        quad := quad + [CharAt(bytes[pos + 1] % 16 * 4 + bytes[pos + 2] / 64, url)];
        quad := quad + [CharAt(bytes[pos + 2] % 64, url)];
      } else {
        quad := quad + [CharAt(bytes[pos + 1] % 16 * 4, url)];
        quad := quad + [Trailing(url)];
      }
    } else {
      quad := quad + [CharAt(bytes[pos] % 4 * 16, url)];
      quad := quad + [Trailing(url)];
      quad := quad + [Trailing(url)];
    }
  }

  /** `base64_encode` */
  method EncodeBytes(bytes: seq<Byte>, url: bool) returns (ret: string)
    ensures ret == Encode(bytes, url)
  {
    ret := "";
    var pos := 0;
    while pos < |bytes|
      invariant ret + Encode(bytes[Min(pos, |bytes|)..], url) == Encode(bytes, url)
      decreases |bytes| - pos
    {
      var quad := EncodeGroupAt(bytes, pos, url);
      EncodeStep(bytes, pos, url);
      AppendAssociates(ret, quad, Encode(bytes[Min(pos + 3, |bytes|)..], url));
      ret := ret + quad;
      pos := pos + 3;
    }
  }

  lemma AppendAssociates(r: string, s: string, t: string)
    ensures r + (s + t) == (r + s) + t
  {
  }

  lemma EncodeStep(bytes: seq<Byte>, pos: nat, url: bool)
    requires pos < |bytes|
    ensures Encode(bytes[pos..], url) ==
            EncodeGroup(bytes[pos..Min(pos + 3, |bytes|)], url) + Encode(bytes[Min(pos + 3, |bytes|)..], url)
  {
    var rest := bytes[pos..];
    if |rest| > 3 {
      assert rest[..3] == bytes[pos..pos + 3] && rest[3..] == bytes[pos + 3..];
    } else {
      assert rest == bytes[pos..|bytes|];
    }
  }

  /** `decode` without line breaks to remove: one group at a time, until one fails. */
  method DecodeString(s: string) returns (r: Result<seq<Byte>>)
    ensures r == Decode(s)
  {
    var ret: seq<Byte> := [];
    var pos := 0;
    PrependNothing(Decode(s));
    assert s[0..] == s;
    while pos < |s|
      invariant Decode(s) == Prepend(ret, Decode(s[Min(pos, |s|)..]))
      decreases |s| - pos
    {
      var group := DecodeGroup(s[pos..]);
      if group.Err? {
        return Err(group.what);
      }
      DecodeStep(s, pos, ret, group.value);
      ret := ret + group.value;
      pos := pos + 4;
    }
    assert s[|s|..] == "" && ret + [] == ret;
    r := Ok(ret);
  }

  ghost function Prepend(head: seq<Byte>, tail: Result<seq<Byte>>): Result<seq<Byte>> {
    if tail.Err? then tail else Ok(head + tail.value)
  }

  lemma PrependNothing(tail: Result<seq<Byte>>)
    ensures Prepend([], tail) == tail
  {
    assert tail.Ok? ==> [] + tail.value == tail.value;
  }

  lemma DecodeStep(s: string, pos: nat, ret: seq<Byte>, group: seq<Byte>)
    requires pos < |s| && DecodeGroup(s[pos..]) == Ok(group)
    ensures Prepend(ret, Decode(s[pos..])) == Prepend(ret + group, Decode(s[Min(pos + 4, |s|)..]))
  {
    var rest := Decode(s[Min(pos + 4, |s|)..]);
    if pos + 4 < |s| {
      assert s[pos..][4..] == s[pos + 4..];
      assert rest.Ok? ==> ret + (group + rest.value) == (ret + group) + rest.value;
    } else {
      assert ret + group + [] == ret + group;
    }
  }

  /** `decode`, which drops the line breaks first when asked to. */
  method DecodeText(s: string, removeLineBreaks: bool) returns (r: Result<seq<Byte>>)
    ensures r == Decode(if removeLineBreaks then RemoveLineBreaks(s) else s)
  {
    if s == "" {
      return Ok([]);
    }
    r := DecodeString(if removeLineBreaks then RemoveLineBreaks(s) else s);
  }

  /** The PEM (64) and MIME (76) forms decode to the bytes they were made of. */
  method EncodeWithLineBreaks(bytes: seq<Byte>, lineLength: nat) returns (r: string)
    requires lineLength > 0
    ensures r == WithLineBreaks(Encode(bytes, false), lineLength) && Decode(RemoveLineBreaks(r)) == Ok(bytes)
  {
    var plain := EncodeBytes(bytes, false);
    r := InsertLineBreaks(plain, lineLength);
    RemoveInsertedLineBreaks(plain, lineLength);
    EncodeHasNoLineBreak(bytes, false);
    NothingToRemove(plain);
    RoundTrip(bytes, false);
  }
}
