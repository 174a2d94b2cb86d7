/**
 * Go's strings, strconv and encoding/hex, as far as the model uses them. A Go string is the sequence of its
 * characters here; case folding is ASCII only.
 */
module Text {
  datatype Option<+T> = None | Some(value: T)

  /******* Trimming *******/

  predicate IsSpace(c: char) {
    || c == ' ' || ('\t' <= c <= '\r') || c == '\U{0085}' || c == '\U{00A0}' || c == '\U{1680}'
    || ('\U{2000}' <= c <= '\U{200A}') || c == '\U{2028}' || c == '\U{2029}' || c == '\U{202F}'
    || c == '\U{205F}' || c == '\U{3000}'
  }

  function TrimLeft(s: string): (r: string)
    ensures |r| <= |s| && r == s[|s| - |r|..]
    ensures r != "" ==> !IsSpace(r[0])
  {
    if s != "" && IsSpace(s[0]) then TrimLeft(s[1..]) else s
  }

  function TrimRight(s: string): (r: string)
    ensures |r| <= |s| && r == s[..|r|]
    ensures r != "" ==> !IsSpace(r[|r| - 1])
  {
    if s != "" && IsSpace(s[|s| - 1]) then TrimRight(s[..|s| - 1]) else s
  }

  predicate Trimmed(s: string) {
    s != "" ==> !IsSpace(s[0]) && !IsSpace(s[|s| - 1])
  }

  /** strings.TrimSpace: the result is trimmed, and is `s` if `s` was trimmed. */
  function TrimSpace(s: string): (r: string)
    ensures Trimmed(r)
    ensures Trimmed(s) ==> r == s
  {
    TrimRight(TrimLeft(s))
  }

  /** The white space of Unicode, which unicode.IsSpace tests for. */
  lemma IsSpaceIff(c: char)
    ensures IsSpace(c) <==>
              c in "\t\n\U{000B}\U{000C}\r \U{0085}\U{00A0}\U{1680}\U{2000}\U{2001}\U{2002}\U{2003}\U{2004}\U{2005}"
              || c in "\U{2006}\U{2007}\U{2008}\U{2009}\U{200A}\U{2028}\U{2029}\U{202F}\U{205F}\U{3000}"
  {}

  predicate AllSpaces(s: string) {
    forall i :: 0 <= i < |s| ==> IsSpace(s[i])
  }

  lemma {:induction false} TrimLeftIs(s: string) returns (lead: string)
    ensures s == lead + TrimLeft(s) && AllSpaces(lead)
  {
    if s != "" && IsSpace(s[0]) {
      var tail := s[1..];
      assert s == [s[0]] + tail;
      var rest := TrimLeftIs(tail);
      lead := [s[0]] + rest;
      Prepend(s[0], rest, TrimLeft(tail));
    } else {
      lead := "";
    }
  }

  lemma Prepend(c: char, a: string, b: string)
    ensures [c] + (a + b) == ([c] + a) + b
    ensures IsSpace(c) && AllSpaces(a) ==> AllSpaces([c] + a)
  {}

  lemma Append(a: string, b: string, c: char)
    ensures (a + b) + [c] == a + (b + [c])
    ensures IsSpace(c) && AllSpaces(b) ==> AllSpaces(b + [c])
  {}

  lemma {:induction false} TrimRightIs(s: string) returns (trail: string)
    ensures s == TrimRight(s) + trail && AllSpaces(trail)
  {
    if s != "" && IsSpace(s[|s| - 1]) {
      var head, c := s[..|s| - 1], s[|s| - 1];
      assert s == head + [c];
      var rest := TrimRightIs(head);
      trail := rest + [c];
      Append(TrimRight(head), rest, c);
    } else {
      trail := "";
    }
  }

  /** What is trimmed off is white space, at either end. */
  lemma TrimSpaceIs(s: string) returns (lo: nat, hi: nat)
    ensures lo <= hi <= |s| && TrimSpace(s) == s[lo..hi]
    ensures AllSpaces(s[..lo]) && AllSpaces(s[hi..])
  {
    var lead := TrimLeftIs(s);
    var trail := TrimRightIs(TrimLeft(s));
    lo, hi := Between(lead, TrimSpace(s), trail, s);
  }

  lemma Between(a: string, b: string, c: string, s: string) returns (lo: nat, hi: nat)
    requires s == a + (b + c)
    ensures lo <= hi <= |s| && a == s[..lo] && b == s[lo..hi] && c == s[hi..]
  {
    lo, hi := |a|, |a| + |b|;
  }

  lemma TrimSpaceAddsNothing(s: string, c: char)
    requires c in TrimSpace(s)
    ensures c in s
  {}

  lemma PrefixKeepsTrimmed(prefix: string, id: string)
    requires prefix != "" && !IsSpace(prefix[0]) && id != "" && Trimmed(id)
    ensures Trimmed(prefix + id)
  {
    var s := prefix + id;
    assert s[0] == prefix[0] && s[|s| - 1] == id[|id| - 1];
  }

  /******* Splitting and joining *******/

  /** The index of the first `c`, or the length. */
  function IndexOf(s: string, c: char): (i: nat)
    ensures i <= |s|
    ensures c !in s[..i]
    ensures i < |s| ==> s[i] == c
  {
    if s == "" || s[0] == c then 0
    else
      assert forall i: nat :: 1 <= i <= |s| ==> s[..i] == [s[0]] + s[1..][..i - 1];
      1 + IndexOf(s[1..], c)
  }

  /** strings.Cut: before and after the first `c`, and whether there is one. */
  function Cut(s: string, c: char): (string, string, bool) {
    var i := IndexOf(s, c);
    if i < |s| then (s[..i], s[i + 1..], true) else (s, "", false)
  }

  lemma {:induction false} IndexOfAt(a: string, c: char, b: string)
    requires c !in a
    ensures IndexOf(a + [c] + b, c) == |a|
  {
    if a != "" {
      assert (a + [c] + b)[1..] == a[1..] + [c] + b;
      IndexOfAt(a[1..], c, b);
    }
  }

  lemma CutAt(a: string, c: char, b: string)
    requires c !in a
    ensures Cut(a + [c] + b, c) == (a, b, true)
  {
    IndexOfAt(a, c, b);
    var s := a + [c] + b;
    assert s[..|a|] == a && s[|a| + 1..] == b;
  }

  function Split(s: string, sep: char): (parts: seq<string>)
    ensures |parts| >= 1
    ensures forall i :: 0 <= i < |parts| ==> sep !in parts[i]
    decreases |s|
  {
    var i := IndexOf(s, sep);
    if i < |s| then [s[..i]] + Split(s[i + 1..], sep)
    else assert s[..i] == s; [s]
  }

  function Join(parts: seq<string>, sep: char): string {
    if parts == [] then "" else if |parts| == 1 then parts[0] else parts[0] + [sep] + Join(parts[1..], sep)
  }

  lemma {:induction false} SplitJoin(parts: seq<string>, sep: char)
    requires parts != [] && forall i :: 0 <= i < |parts| ==> sep !in parts[i]
    ensures Split(Join(parts, sep), sep) == parts
  {
    if |parts| == 1 {
      assert IndexOf(parts[0], sep) == |parts[0]|;
    } else {
      SplitJoin(parts[1..], sep);
      SplitCons(parts[0], Join(parts[1..], sep), sep);
    }
  }

  lemma SplitCons(head: string, tail: string, sep: char)
    requires sep !in head
    ensures Split(head + [sep] + tail, sep) == [head] + Split(tail, sep)
  {
    CutAt(head, sep, tail);
  }

  lemma JoinCons(x: string, rest: seq<string>, sep: char)
    requires rest != []
    ensures Join([x] + rest, sep) == x + [sep] + Join(rest, sep)
  {
    assert ([x] + rest)[1..] == rest;
  }

  lemma Around<T>(s: seq<T>, i: nat)
    requires i < |s|
    ensures s[..i] + [s[i]] + s[i + 1..] == s
  {
  }

  lemma SplitAtFirst(s: string, sep: char) returns (head: string, tail: string)
    requires sep in s
    ensures sep !in head && |tail| < |s| && s == head + [sep] + tail && Split(s, sep) == [head] + Split(tail, sep)
  {
    var i := IndexOf(s, sep);
    head, tail := s[..i], s[i + 1..];
    Around(s, i);
  }

  lemma {:induction false} JoinSplit(s: string, sep: char)
    ensures Join(Split(s, sep), sep) == s
    decreases |s|
  {
    if sep in s {
      var head, tail := SplitAtFirst(s, sep);
      JoinSplit(tail, sep);
      JoinCons(head, Split(tail, sep), sep);
    } else {
      assert Split(s, sep) == [s];
    }
  }

  lemma {:induction false} JoinConcat(a: seq<string>, b: seq<string>, sep: char)
    requires a != [] && b != []
    ensures Join(a + b, sep) == Join(a, sep) + [sep] + Join(b, sep)
  {
    if |a| == 1 {
      assert (a + b)[1..] == b;
    } else {
      assert (a + b)[1..] == a[1..] + b;
      JoinConcat(a[1..], b, sep);
    }
  }

  lemma {:induction false} JoinTrimmed(parts: seq<string>, sep: char)
    requires forall i :: 0 <= i < |parts| ==> parts[i] != "" && Trimmed(parts[i])
    ensures Trimmed(Join(parts, sep))
    ensures parts != [] ==> Join(parts, sep) != "" && Join(parts, sep)[0] == parts[0][0]
  {
    if |parts| > 1 {
      JoinTrimmed(parts[1..], sep);
      var tail := Join(parts[1..], sep);
      assert Join(parts, sep) == parts[0] + [sep] + tail;
      assert Join(parts, sep)[|Join(parts, sep)| - 1] == tail[|tail| - 1];
    }
  }

  function Occurrences(s: string, c: char): nat {
    if s == "" then 0 else (if s[0] == c then 1 else 0) + Occurrences(s[1..], c)
  }

  lemma {:induction false} OccurrencesAppend(a: string, b: string, c: char)
    ensures Occurrences(a + b, c) == Occurrences(a, c) + Occurrences(b, c)
  {
    if a == "" {
      assert a + b == b;
    } else {
      assert (a + b)[1..] == a[1..] + b;
      OccurrencesAppend(a[1..], b, c);
    }
  }

  lemma {:induction false} NoOccurrences(s: string, c: char)
    requires c !in s
    ensures Occurrences(s, c) == 0
  {
    if s != "" { NoOccurrences(s[1..], c); }
  }

  lemma {:induction false} SplitCount(s: string, sep: char)
    ensures |Split(s, sep)| == 1 + Occurrences(s, sep)
    decreases |s|
  {
    if sep in s {
      var head, tail := SplitAtFirst(s, sep);
      SplitCount(tail, sep);
      NoOccurrences(head, sep);
      OccurrencesAppend(head, [sep], sep);
      OccurrencesAppend(head + [sep], tail, sep);
      assert Occurrences([sep], sep) == 1;
    } else {
      NoOccurrences(s, sep);
    }
  }

  lemma TailSplitsNoFiner(s: string, lo: nat, sep: char)
    requires lo <= |s|
    ensures |Split(s[lo..], sep)| <= |Split(s, sep)|
  {
    SplitCount(s, sep);
    SplitCount(s[lo..], sep);
    OccurrencesAppend(s[..lo], s[lo..], sep);
    assert s == s[..lo] + s[lo..];
  }

  lemma SliceSplitsNoFiner(s: string, lo: nat, hi: nat, sep: char)
    requires lo <= hi <= |s|
    ensures |Split(s[lo..hi], sep)| <= |Split(s, sep)|
  {
    TailSplitsNoFiner(s, lo, sep);
    SplitCount(s[lo..], sep);
    SplitCount(s[lo..hi], sep);
    OccurrencesAppend(s[lo..hi], s[hi..], sep);
    assert s[lo..] == s[lo..hi] + s[hi..];
  }

  /** The pieces that are not blank, trimmed: what the comma-separated lists of the program keep. */
  function NonBlank(parts: seq<string>): (kept: seq<string>)
    ensures forall x :: x in kept ==> x != "" && Trimmed(x)
  {
    if parts == [] then []
    else
      var rest, x := NonBlank(parts[..|parts| - 1]), TrimSpace(parts[|parts| - 1]);
      if x == "" then rest else rest + [x]
  }

  lemma {:induction false} NonBlankAddsNothing(parts: seq<string>, c: char)
    requires forall i :: 0 <= i < |parts| ==> c !in parts[i]
    ensures forall x :: x in NonBlank(parts) ==> c !in x
  {
    if parts != [] {
      NonBlankAddsNothing(parts[..|parts| - 1], c);
      if c in TrimSpace(parts[|parts| - 1]) { TrimSpaceAddsNothing(parts[|parts| - 1], c); }
    }
  }

  lemma NonBlankAppend(parts: seq<string>, x: string)
    ensures NonBlank(parts + [x]) == NonBlank(parts) + if TrimSpace(x) == "" then [] else [TrimSpace(x)]
  {
    assert (parts + [x])[..|parts|] == parts;
  }

  lemma {:induction false} NonBlankIdentity(parts: seq<string>)
    requires forall i :: 0 <= i < |parts| ==> parts[i] != "" && Trimmed(parts[i])
    ensures NonBlank(parts) == parts
  {
    if parts != [] {
      var init, x := parts[..|parts| - 1], parts[|parts| - 1];
      NonBlankIdentity(init);
      assert parts == init + [x];
      NonBlankAppend(init, x);
    }
  }

  predicate HasPrefix(s: string, prefix: string) {
    prefix <= s
  }

  function TrimPrefix(s: string, prefix: string): string {
    if HasPrefix(s, prefix) then s[|prefix|..] else s
  }

  lemma Prefixed(prefix: string, x: string)
    ensures HasPrefix(prefix + x, prefix) && TrimPrefix(prefix + x, prefix) == x
  {}

  lemma OtherPrefix(prefix: string, x: string, other: string)
    requires prefix != "" && other != "" && prefix[0] != other[0]
    ensures !HasPrefix(prefix + x, other)
  {
    assert (prefix + x)[0] == prefix[0];
  }

  /******* Case *******/

  function Lower(c: char): char {
    if 'A' <= c <= 'Z' then ((c as int) + 32) as char else c
  }

  function ToLower(s: string): (r: string)
    ensures |r| == |s|
    ensures forall i :: 0 <= i < |s| ==> r[i] == Lower(s[i])
  {
    seq(|s|, i requires 0 <= i < |s| => Lower(s[i]))
  }

  predicate EqualFold(a: string, b: string) {
    ToLower(a) == ToLower(b)
  }

  /** Two strings are equal under folding exactly if they are so letter by letter, the 26 letters in either case. */
  lemma EqualFoldIff(a: string, b: string)
    ensures EqualFold(a, b) <==>
              && |a| == |b|
              && forall i :: 0 <= i < |a| ==>
                   || a[i] == b[i]
                   || ('A' <= a[i] <= 'Z' && b[i] as int == a[i] as int + 32)
                   || ('A' <= b[i] <= 'Z' && a[i] as int == b[i] as int + 32)
  {
    if |a| == |b| {
      forall i | 0 <= i < |a|
        ensures ToLower(a)[i] == ToLower(b)[i] <==>
                  || a[i] == b[i]
                  || ('A' <= a[i] <= 'Z' && b[i] as int == a[i] as int + 32)
                  || ('A' <= b[i] <= 'Z' && a[i] as int == b[i] as int + 32)
      {}
    }
  }

  lemma FoldLower(a: string, b: string)
    ensures EqualFold(a, ToLower(b)) <==> EqualFold(a, b)
  {
    LowerTwice(b);
  }

  lemma LowerTwice(s: string)
    ensures ToLower(ToLower(s)) == ToLower(s)
  {}

  /******* Decimal numbers *******/

  const MIN_INT64: int := -0x8000_0000_0000_0000
  const MAX_INT64: int := 0x7FFF_FFFF_FFFF_FFFF

  predicate IsDigit(c: char) {
    '0' <= c <= '9'
  }

  function Digits(n: nat): (s: string)
    ensures s != "" && forall c :: c in s ==> IsDigit(c)
    decreases n
  {
    var last := ('0' as int + n % 10) as char;
    if n < 10 then [last] else Digits(n / 10) + [last]
  }

  function DigitsValue(s: string): nat
    requires forall c :: c in s ==> IsDigit(c)
  {
    if s == "" then 0
    else assert IsDigit(s[|s| - 1]); DigitsValue(s[..|s| - 1]) * 10 + (s[|s| - 1] as int - '0' as int)
  }

  lemma {:induction false} DigitsRoundTrip(n: nat)
    ensures DigitsValue(Digits(n)) == n
    decreases n
  {
    var s := Digits(n);
    if n >= 10 {
      DigitsRoundTrip(n / 10);
      assert s[..|s| - 1] == Digits(n / 10);
    } else {
      assert s[..|s| - 1] == "";
      assert DigitsValue("") == 0;
    }
  }

  /** strconv.Itoa and FormatInt in base 10. */
  function Itoa(n: int): (s: string)
    ensures s != "" && forall c :: c in s ==> IsDigit(c) || c == '-'
  {
    if n < 0 then "-" + Digits(-n) else Digits(n)
  }

  /** strconv.Atoi and ParseInt(s, 10, 64): an optional sign, at least one digit, an int64 value. */
  function Atoi(s: string): Option<int> {
    var signed := s != "" && (s[0] == '-' || s[0] == '+');
    var digits := if signed then s[1..] else s;
    if digits == "" || exists c :: c in digits && !IsDigit(c) then None
    else
      var n: int := if signed && s[0] == '-' then 0 - DigitsValue(digits) else DigitsValue(digits);
      if MIN_INT64 <= n <= MAX_INT64 then Some(n) else None
  }

  lemma AtoiItoa(n: int)
    requires MIN_INT64 <= n <= MAX_INT64
    ensures Atoi(Itoa(n)) == Some(n)
  {
    DigitsRoundTrip(if n < 0 then -n else n);
    assert n < 0 ==> Itoa(n)[1..] == Digits(-n);
    assert n >= 0 ==> IsDigit(Digits(n)[0]);
  }

  /** Printing is decimal, most significant digit first. */
  lemma ItoaIs(n: nat, d: nat)
    requires d < 10
    ensures Itoa(d) == ["0123456789"[d]]
    ensures n > 0 ==> Itoa(10 * n + d) == Itoa(n) + ["0123456789"[d]]
    ensures n > 0 ==> Itoa(0 - n) == "-" + Itoa(n)
  {
    assert (10 * n + d) / 10 == n && (10 * n + d) % 10 == d;
  }

  lemma DigitsValuePush(s: string, d: nat)
    requires d < 10 && forall c :: c in s ==> IsDigit(c)
    ensures forall c :: c in s + ["0123456789"[d]] ==> IsDigit(c)
    ensures DigitsValue(s + ["0123456789"[d]]) == 10 * DigitsValue(s) + d
  {
    var t := s + ["0123456789"[d]];
    assert t[..|t| - 1] == s;
  }

  predicate AllDigits(s: string) {
    forall c :: c in s ==> '0' <= c <= '9'
  }

  /** Digits are read as the number they spell if it fits, with a sign or without; nothing else is read. */
  lemma AtoiReads(s: string)
    ensures s != "" && AllDigits(s) ==> Atoi(s) == if DigitsValue(s) <= MAX_INT64 then Some(DigitsValue(s)) else None
    ensures Atoi(s).Some? ==> s != "" && AllDigits(if s[0] == '-' || s[0] == '+' then s[1..] else s)
  {
    if s != "" {
      assert s[0] in s;
      var digits := if s[0] == '-' || s[0] == '+' then s[1..] else s;
      if !AllDigits(digits) {
        var c :| c in digits && !('0' <= c <= '9');
        assert !IsDigit(c);
      }
    }
  }

  lemma AtoiReadsSigned(s: string)
    requires s != "" && AllDigits(s)
    ensures Atoi("+" + s) == if DigitsValue(s) <= MAX_INT64 then Some(DigitsValue(s)) else None
    ensures Atoi("-" + s) == if 0 - DigitsValue(s) >= MIN_INT64 then Some(0 - DigitsValue(s)) else None
  {
    assert ("+" + s)[1..] == s && ("-" + s)[1..] == s;
  }

  lemma ItoaTrimmed(n: int)
    ensures Itoa(n) != "" && Trimmed(Itoa(n)) && TrimSpace(Itoa(n)) == Itoa(n)
  {
    var s := Itoa(n);
    assert s[0] in s && s[|s| - 1] in s;
  }

  lemma ItoaInjective(m: int, n: int)
    requires Itoa(m) == Itoa(n)
    ensures m == n
  {
    DigitsRoundTrip(if m < 0 then -m else m);
    DigitsRoundTrip(if n < 0 then -n else n);
    assert m < 0 ==> Itoa(m)[1..] == Digits(-m);
    assert n < 0 ==> Itoa(n)[1..] == Digits(-n);
    assert m >= 0 ==> IsDigit(Itoa(m)[0]);
    assert n >= 0 ==> IsDigit(Itoa(n)[0]);
  }

  /******* Hexadecimal (section 8 of RFC 4648, lower-case alphabet) *******/

  type Byte = x: int | 0 <= x < 256

  function HexDigit(d: int): char
    requires 0 <= d < 16
  {
    if d < 10 then ('0' as int + d) as char else ('a' as int + d - 10) as char
  }

  /** Either case is accepted when decoding. */
  function HexValue(c: char): (v: Option<int>)
    ensures v.Some? ==> 0 <= v.value < 16
  {
    if '0' <= c <= '9' then Some(c as int - '0' as int)
    else if 'a' <= c <= 'f' then Some(c as int - 'a' as int + 10)
    else if 'A' <= c <= 'F' then Some(c as int - 'A' as int + 10)
    else None
  }

  function EncodeHex(bytes: seq<Byte>): (s: string)
    ensures |s| == 2 * |bytes|
    ensures forall c :: c in s ==> HexValue(c).Some?
  {
    if bytes == [] then ""
    else [HexDigit(bytes[0] / 16), HexDigit(bytes[0] % 16)] + EncodeHex(bytes[1..])
  }

  function DecodeHex(s: string): Option<seq<Byte>> {
    if s == "" then Some([])
    else if |s| == 1 then None
    else
      var hi, lo, rest := HexValue(s[0]), HexValue(s[1]), DecodeHex(s[2..]);
      if hi.Some? && lo.Some? && rest.Some? then Some([hi.value * 16 + lo.value] + rest.value) else None
  }

  /** Two lower-case digits a byte, the higher one first. */
  lemma {:induction false} EncodeHexAt(bytes: seq<Byte>, i: nat)
    requires i < |bytes|
    ensures EncodeHex(bytes)[2 * i] == "0123456789abcdef"[bytes[i] / 16]
    ensures EncodeHex(bytes)[2 * i + 1] == "0123456789abcdef"[bytes[i] % 16]
  {
    if i > 0 { EncodeHexAt(bytes[1..], i - 1); }
  }

  lemma HexDigitValue(d: int)
    requires 0 <= d < 16
    ensures HexValue(HexDigit(d)) == Some(d)
  {}

  lemma {:induction false} HexRoundTrip(bytes: seq<Byte>)
    ensures DecodeHex(EncodeHex(bytes)) == Some(bytes)
  {
    if bytes != [] {
      HexRoundTrip(bytes[1..]);
      HexDigitValue(bytes[0] / 16);
      HexDigitValue(bytes[0] % 16);
      var s := EncodeHex(bytes);
      assert s[0] == HexDigit(bytes[0] / 16) && s[1] == HexDigit(bytes[0] % 16);
      assert s[2..] == EncodeHex(bytes[1..]);
      assert bytes == [bytes[0]] + bytes[1..];
    }
  }
}
