/** The records of a snapshot file as characters: decimal numbers, tags and length-prefixed texts (src/cxfile.c). */
module Records {
  import opened CharacterReader

  const FILE_KNOWLEDGE_TIME := 'w'
  const FILE_KNOWLEDGE_TIME_NSEC := 'x'
  const FILE_CHANGE_TIME := 'y'
  const FILE_CHANGE_TIME_NSEC := 'z'
  const FILE_NUMBER := 'f'
  const SYMBOL_INDEX := 's'
  const USAGE := 'u'
  const LINE_INDEX := 'l'
  const COLUMN_INDEX := 'c'
  const REFERENCE := 'r'
  const SYMBOL_TYPE := 't'
  const STORAGE := 'g'
  const SYMBOL_NAME := '/'
  const FILE_NAME := ':'
  const CHECK_NUMBER := 'k'
  const VERSION := 'v'
  const KEY_LIST := '@'
  const INCLUDEFILENUMBER := 'd'

  /** A record: its number, its tag, and the text that follows it, if any. */
  datatype Rec = Rec(tag: char, n: nat, text: string)

  // A handler of the snapshot reader reads a text after this tag.
  predicate IsTextTag(tag: char) {
    tag == FILE_NAME || tag == SYMBOL_NAME || tag == VERSION || tag == KEY_LIST
  }

  // The reader has a handler that reads no text, or has been told that the tag goes with a number only.
  predicate IsNumberTag(tag: char, keys: set<char>) {
    tag == REFERENCE || tag == CHECK_NUMBER || (tag in keys && !IsTextTag(tag))
  }

  predicate IsDigit(c: char) {
    '0' <= c <= '9'
  }

  predicate IsBlank(c: char) {
    c == ' ' || c == '\n' || c == '\t'
  }

  function DigitOf(n: nat): char
    requires n < 10
  {
    '0' + n as char
  }

  // fPutDecimal
  function Decimal(n: nat): (s: string)
    ensures s != []
  {
    if n < 10 then [DigitOf(n)] else Decimal(n / 10) + [DigitOf(n % 10)]
  }

  function Value(c: char): nat
    requires IsDigit(c)
  {
    c as int - '0' as int
  }

  /** scanInteger, after the blanks: the number that s begins with, continuing one that has come to acc, and
      what follows it. */
  function Number(s: string, acc: nat): (r: (nat, string))
    ensures |r.1| <= |s|
    ensures r.1 != [] ==> !IsDigit(r.1[0])
  {
    if s == [] || !IsDigit(s[0]) then (acc, s) else Number(s[1..], acc * 10 + Value(s[0]))
  }

  function SkipBlanks(s: string): (r: string)
    ensures |r| <= |s|
  {
    if s == [] || !IsBlank(s[0]) then s else SkipBlanks(s[1..])
  }

  /** A decimal number is read back as it was written. */
  lemma {:induction false} DecimalRead(n: nat, rest: string)
    requires rest == [] || !IsDigit(rest[0])
    ensures Number(Decimal(n) + rest, 0) == (n, rest)
  {
    DecimalAfter(n, rest);
    assert Number(rest, n) == (n, rest);
  }

  // Reading the digits of n comes to n, whatever follows.
  lemma {:induction false} DecimalAfter(n: nat, rest: string)
    ensures Number(Decimal(n) + rest, 0) == Number(rest, n)
    decreases n
  {
    if n < 10 {
      var s := [DigitOf(n)] + rest;
      assert s[1..] == rest;
    } else {
      var d := [DigitOf(n % 10)] + rest;
      assert Decimal(n) + rest == Decimal(n / 10) + d;
      DecimalAfter(n / 10, d);
      assert d[1..] == rest;
    }
  }

  // A record as the writer puts it: a zero is left out before the tag of a number.
  function Rendered(r: Rec): string {
    (if r.n != 0 then Decimal(r.n) else "") + [r.tag] + r.text
  }

  /** What the writer puts out: blanks or a record. */
  datatype Piece = Blank(s: string) | Record(r: Rec)

  function Out(pieces: seq<Piece>): string {
    if pieces == [] then "" else (match pieces[0] case Blank(s) => s case Record(r) => Rendered(r)) + Out(pieces[1..])
  }

  function RecsOf(pieces: seq<Piece>): seq<Rec> {
    if pieces == [] then [] else (match pieces[0] case Blank(_) => [] case Record(r) => [r]) + RecsOf(pieces[1..])
  }

  // The keys that a record adds to those that go with numbers.
  function KeysAfter(r: Rec, keys: set<char>): set<char> {
    if r.tag == KEY_LIST then keys + (set c | c in r.text) else keys
  }

  /** The records that the scanner meets in s. */
  function Scan(s: string, keys: set<char>): seq<Rec>
    decreases |s|
  {
    var s1 := SkipBlanks(s);
    var (n, s2) := Number(s1, 0);
    if s2 == [] then [] else
    var tag := s2[0];
    var length := if IsNumberTag(tag, keys) || n == 0 then 0 else n - 1;
    var r := Rec(tag, n, Padded(s2[1..], length));
    [r] + Scan(Dropped(s2[1..], length), KeysAfter(r, keys))
  }

  // A record that the reader reads back.
  ghost predicate Readable(r: Rec, keys: set<char>) {
    && !IsDigit(r.tag) && !IsBlank(r.tag)
    && if IsNumberTag(r.tag, keys) then r.text == "" else r.n == |r.text| + 1
  }

  ghost predicate AllReadable(pieces: seq<Piece>, keys: set<char>) {
    if pieces == [] then true else
    match pieces[0]
    case Blank(s) => (forall i :: 0 <= i < |s| ==> IsBlank(s[i])) && AllReadable(pieces[1..], keys)
    case Record(r) => Readable(r, keys) && AllReadable(pieces[1..], KeysAfter(r, keys))
  }

  lemma {:induction false} BlanksSkipped(s: string, rest: string)
    requires forall i :: 0 <= i < |s| ==> IsBlank(s[i])
    ensures SkipBlanks(s + rest) == SkipBlanks(rest)
    decreases |s|
  {
    if s == [] {
      assert s + rest == rest;
    } else {
      assert (s + rest)[1..] == s[1..] + rest;
      BlanksSkipped(s[1..], rest);
    }
  }

  lemma ScanBlanks(s: string, rest: string, keys: set<char>)
    requires forall i :: 0 <= i < |s| ==> IsBlank(s[i])
    ensures Scan(s + rest, keys) == Scan(rest, keys)
  {
    BlanksSkipped(s, rest);
  }

  lemma {:induction false} DecimalDigits(n: nat)
    ensures forall i :: 0 <= i < |Decimal(n)| ==> IsDigit(Decimal(n)[i])
    decreases n
  {
    if n >= 10 {
      DecimalDigits(n / 10);
    }
  }

  lemma {:induction false} ScanRecord(r: Rec, rest: string, keys: set<char>)
    requires Readable(r, keys)
    ensures Scan(Rendered(r) + rest, keys) == [r] + Scan(rest, KeysAfter(r, keys))
  {
    hide Scan;
    var s := Rendered(r) + rest;
    var tail := [r.tag] + (r.text + rest);
    assert s == (if r.n != 0 then Decimal(r.n) else "") + tail;
    if r.n != 0 {
      DecimalRead(r.n, tail);
      DecimalDigits(r.n);
      assert s == Decimal(r.n) + tail;
    } else {
      assert s == tail;
    }
    assert SkipBlanks(s) == s && Number(s, 0) == (r.n, tail);
    assert tail[1..] == r.text + rest;
    assert Padded(r.text + rest, |r.text|) == r.text && Dropped(r.text + rest, |r.text|) == rest;
    ScanOnce(s, tail, r.n, keys);
  }

  lemma {:induction false} ScanOnce(s: string, tail: string, n: nat, keys: set<char>)
    requires SkipBlanks(s) == s && Number(s, 0) == (n, tail) && tail != []
    ensures var length := if IsNumberTag(tail[0], keys) || n == 0 then 0 else n - 1;
            var r := Rec(tail[0], n, Padded(tail[1..], length));
            Scan(s, keys) == [r] + Scan(Dropped(tail[1..], length), KeysAfter(r, keys))
  {
  }

  /** The scanner finds just the records that were written. */
  lemma {:induction false} ScanOut(pieces: seq<Piece>, keys: set<char>)
    requires AllReadable(pieces, keys)
    ensures Scan(Out(pieces), keys) == RecsOf(pieces)
    decreases |pieces|
  {
    if pieces != [] {
      match pieces[0]
      case Blank(s) =>
        ScanBlanks(s, Out(pieces[1..]), keys);
        ScanOut(pieces[1..], keys);
      case Record(r) =>
        ScanRecord(r, Out(pieces[1..]), keys);
        ScanOut(pieces[1..], KeysAfter(r, keys));
    }
  }
}
