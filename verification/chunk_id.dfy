/** Chunk ids: `f"{sec_name}_{i+1}"` in `chunk_judgment` (chunking.py line
    157, app.py line 110). Python's `str` of a positive integer is its decimal
    form without leading zeros. The parser splits at the LAST underscore, so a
    section name may itself hold underscores; it is the inverse that shows no
    two records get the same id. */
module ChunkIds {
  import opened Wrappers

  predicate IsDigit(c: char) {
    '0' <= c <= '9'
  }

  predicate AllDigits(s: string) {
    forall i :: 0 <= i < |s| ==> IsDigit(s[i])
  }

  /** Decimal digits with no leading zero (`"0"` itself allowed). */
  predicate Canonical(s: string) {
    |s| > 0 && AllDigits(s) && (|s| == 1 || s[0] != '0')
  }

  function DigitChar(d: nat): (c: char)
    requires d < 10
    ensures IsDigit(c)
  {
    ('0' as int + d) as char
  }

  function DigitVal(c: char): (d: nat)
    requires IsDigit(c)
    ensures d < 10 && DigitChar(d) == c
  {
    c as int - '0' as int
  }

  /** `str(n)`. */
  function Decimal(n: nat): (s: string)
    ensures Canonical(s)
  {
    if n < 10 then [DigitChar(n)]
    else
      var p := Decimal(n / 10);
      assert (p + [DigitChar(n % 10)])[0] == p[0];
      p + [DigitChar(n % 10)]
  }

  /** `int(s)` for a string of decimal digits. */
  function ParseDecimal(s: string): nat
    requires AllDigits(s)
  {
    if |s| == 0 then 0 else ParseDecimal(s[..|s| - 1]) * 10 + DigitVal(s[|s| - 1])
  }

  lemma {:induction false} ParseDecimalOfDecimal(n: nat)
    ensures ParseDecimal(Decimal(n)) == n
  {
    if n >= 10 {
      var s := Decimal(n);
      ParseDecimalOfDecimal(n / 10);
      assert s[..|s| - 1] == Decimal(n / 10);
    }
  }

  /** A digit string not starting with `'0'` denotes a positive number. */
  lemma {:induction false} LeadingDigitPositive(s: string)
    requires |s| > 0 && AllDigits(s) && s[0] != '0'
    ensures ParseDecimal(s) > 0
  {
    if |s| > 1 {
      LeadingDigitPositive(s[..|s| - 1]);
    }
  }

  lemma {:induction false} DecimalOfParseDecimal(s: string)
    requires Canonical(s)
    ensures Decimal(ParseDecimal(s)) == s
  {
    if |s| > 1 {
      var p := s[..|s| - 1];
      LeadingDigitPositive(p);
      DecimalOfParseDecimal(p);
      var n := ParseDecimal(s);
      assert n / 10 == ParseDecimal(p) && n % 10 == DigitVal(s[|s| - 1]);
      assert s == p + [s[|s| - 1]];
    }
  }

  /** `f"{key}_{n}"`. */
  function ChunkId(key: string, n: nat): string {
    key + "_" + Decimal(n)
  }

  /** The section name and chunk number an id stands for. */
  datatype ChunkRef = ChunkRef(section: string, index: nat)

  /** Index of the last `c` in `s`, or -1. */
  function LastIndexOf(s: string, c: char): (i: int)
    ensures -1 <= i < |s|
    ensures i >= 0 ==> s[i] == c
    ensures forall j :: i < j < |s| ==> s[j] != c
  {
    if |s| == 0 then -1
    else if s[|s| - 1] == c then |s| - 1
    else LastIndexOf(s[..|s| - 1], c)
  }

  /** Reads an id back: the text before the last `'_'` and the canonical
      decimal after it; anything else is not an id. */
  function ParseChunkId(id: string): Option<ChunkRef> {
    var i := LastIndexOf(id, '_');
    if i < 0 then None
    else
      var digits := id[i + 1..];
      if Canonical(digits) then Some(ChunkRef(id[..i], ParseDecimal(digits))) else None
  }

  /** Every id reads back as the section and number it was made from. */
  lemma ParseChunkIdOfChunkId(key: string, n: nat)
    ensures ParseChunkId(ChunkId(key, n)) == Some(ChunkRef(key, n))
  {
    var id := ChunkId(key, n);
    var d := Decimal(n);
    assert forall j :: |key| < j < |id| ==> id[j] == d[j - |key| - 1];
    assert id[|key|] == '_';
    assert LastIndexOf(id, '_') == |key|;
    assert id[|key| + 1..] == d && id[..|key|] == key;
    ParseDecimalOfDecimal(n);
  }

  /** Every string that reads back as an id is exactly that id. */
  lemma ChunkIdOfParseChunkId(id: string)
    requires ParseChunkId(id).Some?
    ensures ChunkId(ParseChunkId(id).value.section, ParseChunkId(id).value.index) == id
  {
    var i := LastIndexOf(id, '_');
    DecimalOfParseDecimal(id[i + 1..]);
    assert id == id[..i] + "_" + id[i + 1..];
  }

  /** Two ids are equal exactly when section and number are. */
  lemma ChunkIdInjective(k1: string, n1: nat, k2: string, n2: nat)
    ensures ChunkId(k1, n1) == ChunkId(k2, n2) <==> k1 == k2 && n1 == n2
  {
    ParseChunkIdOfChunkId(k1, n1);
    ParseChunkIdOfChunkId(k2, n2);
  }
}
