/** The message texts of the tree copy between storage servers. */
module Wire {

  const BUFFER_SIZE := 1024
  const ACK := "Message received"
  const MAX_FILE_SIZE := 0x8000_0000_0000_0000

  predicate IsSpace(c: char) {
    c == ' ' || c == '\n' || c == '\t' || c == '\r'
  }

  /** No white space: a word that `sscanf("%s")` reads back whole. */
  predicate Clean(s: string) {
    forall i :: 0 <= i < |s| ==> !IsSpace(s[i])
  }

  /** The characters up to the first white space. */
  function Word(s: string): string {
    if s == "" || IsSpace(s[0]) then "" else [s[0]] + Word(s[1..])
  }

  /** `sscanf(s, "%s")`: skip white space, then read a word. */
  function Scan(s: string): string {
    if s != "" && IsSpace(s[0]) then Scan(s[1..]) else Word(s)
  }

  lemma {:induction false} WordLine(w: string)
    requires Clean(w)
    ensures Word(w + "\n") == w
    decreases |w|
  {
    var s := w + "\n";
    if w != "" {
      assert s[1..] == w[1..] + "\n";
      WordLine(w[1..]);
    }
  }

  lemma {:induction false} ScanLine(w: string)
    requires Clean(w) && w != ""
    ensures Scan(w + "\n") == w
  {
    WordLine(w);
    assert (w + "\n")[0] == w[0];
  }

  function Digit(d: nat): char
    requires d < 10
  {
    ('0' as int + d) as char
  }

  predicate IsDigit(c: char) {
    '0' <= c <= '9'
  }

  /** `"%ld"`. */
  function Decimal(n: nat): string {
    if n < 10 then [Digit(n)] else Decimal(n / 10) + [Digit(n % 10)]
  }

  /** `atol` on a line that starts with a digit. */
  function ReadNumber(s: string, acc: nat): nat {
    if s == "" || !IsDigit(s[0]) then acc
    else ReadNumber(s[1..], 10 * acc + (s[0] as int - '0' as int))
  }

  lemma {:induction false} ReadDecimal(n: nat, rest: string)
    ensures ReadNumber(Decimal(n) + rest, 0) == ReadNumber(rest, n)
    decreases n
  {
    var s := Decimal(n) + rest;
    if n < 10 {
      assert s[1..] == rest;
    } else {
      var tail := [Digit(n % 10)] + rest;
      assert s == Decimal(n / 10) + tail;
      ReadDecimal(n / 10, tail);
      assert tail[1..] == rest;
    }
  }

  /** The size line is read back. */
  lemma {:induction false} ReadSize(n: nat)
    ensures ReadNumber(Decimal(n) + "\n", 0) == n
  {
    ReadDecimal(n, "\n");
  }

  function Power10(k: nat): nat {
    if k == 0 then 1 else 10 * Power10(k - 1)
  }

  lemma {:induction false} DecimalLength(n: nat, k: nat)
    requires k >= 1 && n < Power10(k)
    ensures 1 <= |Decimal(n)| <= k
    decreases k
  {
    if n >= 10 {
      DecimalLength(n / 10, k - 1);
    }
  }

  /** Sizes of at most 63 bits fit on a line of at most 20 bytes. */
  lemma {:induction false} SizeLine(n: nat)
    requires n < MAX_FILE_SIZE
    ensures 2 <= |Decimal(n) + "\n"| <= 20
  {
    assert Power10(4) == 10000;
    assert Power10(8) == 1_0000_0000;
    assert Power10(12) == 1_0000_0000_0000;
    assert Power10(16) == 1_0000_0000_0000_0000;
    assert Power10(19) == 1000_0000_0000_0000_0000;
    DecimalLength(n, 19);
  }

  /** The content as `read` delivers it, at most `BUFFER_SIZE` bytes at a time. */
  function Chunks(content: string): seq<string> {
    if content == "" then []
    else if |content| <= BUFFER_SIZE then [content]
    else [content[..BUFFER_SIZE]] + Chunks(content[BUFFER_SIZE..])
  }

  /** The bytes of a stream that arrives in pieces. */
  function Flat(parts: seq<string>): string {
    if parts == [] then "" else parts[0] + Flat(parts[1..])
  }

  lemma {:induction false} FlatAppend(parts: seq<string>, last: string)
    ensures Flat(parts + [last]) == Flat(parts) + last
    decreases |parts|
  {
    if parts == [] {
      assert parts + [last] == [last];
    } else {
      assert (parts + [last])[1..] == parts[1..] + [last];
      FlatAppend(parts[1..], last);
    }
  }
}
