/** The uid generator of the hash store: `s4()` turns an integer in
    [0x10000, 0x1FFFF] into hex with `toString(16)` and drops the leading `1`;
    `uuid()` joins eight such groups as 8-4-4-4-12. The random draw is an input
    here. No version or variant nibble is fixed, so the result has the shape of
    an RFC 4122 UUID without being a version-4 UUID. */
module UidFormat {

  /** Lower-case hexadecimal digits, as `Number.prototype.toString(16)` writes them. */
  predicate IsHexDigit(c: char) {
    ('0' <= c <= '9') || ('a' <= c <= 'f')
  }

  function HexDigit(d: int): (c: char)
    requires 0 <= d < 16
    ensures IsHexDigit(c)
  {
    if d < 10 then ('0' as int + d) as char else ('a' as int + d - 10) as char
  }

  function HexDigitValue(c: char): (d: int)
    requires IsHexDigit(c)
    ensures 0 <= d < 16
    ensures HexDigit(d) == c
  {
    if c <= '9' then c as int - '0' as int else c as int - 'a' as int + 10
  }

  /** `n.toString(16)` for a non-negative integer: no leading zeros. */
  function ToHex(n: nat): (r: string)
    ensures |r| >= 1
    ensures forall i :: 0 <= i < |r| ==> IsHexDigit(r[i])
  {
    if n < 16 then [HexDigit(n)] else ToHex(n / 16) + [HexDigit(n % 16)]
  }

  /** The integers `Math.floor((1 + Math.random()) * 0x10000)` can produce. */
  predicate InDrawRange(n: int) {
    0x10000 <= n <= 0x1FFFF
  }

  /** Four hex digits of a 16-bit value, most significant first. */
  function Hex4(m: int): (r: string)
    requires 0 <= m < 0x10000
    ensures |r| == 4
    ensures forall i :: 0 <= i < 4 ==> IsHexDigit(r[i])
  {
    [HexDigit(m / 4096), HexDigit((m / 256) % 16), HexDigit((m / 16) % 16), HexDigit(m % 16)]
  }

  /** The value of four hex digits. */
  function ParseHex4(s: string): (m: int)
    requires |s| == 4
    requires forall i :: 0 <= i < 4 ==> IsHexDigit(s[i])
    ensures 0 <= m < 0x10000
  {
    4096 * HexDigitValue(s[0]) + 256 * HexDigitValue(s[1]) + 16 * HexDigitValue(s[2]) + HexDigitValue(s[3])
  }

  lemma HexDigitRoundTrip(d: int)
    requires 0 <= d < 16
    ensures HexDigitValue(HexDigit(d)) == d
  {
  }

  /** Splitting a 16-bit value into its four hex digits. */
  lemma Nibbles(m: int)
    requires 0 <= m < 0x10000
    ensures m == 4096 * (m / 4096) + 256 * ((m / 256) % 16) + 16 * ((m / 16) % 16) + m % 16
    ensures 0 <= m / 4096 < 16
  {
    var a, b, c := m / 16, m / 256, m / 4096;
    assert m == 16 * a + m % 16;
    assert a / 16 == b;
    assert a == 16 * b + a % 16;
    assert b / 16 == c;
    assert b == 16 * c + b % 16;
  }

  lemma Hex4RoundTrip(m: int)
    requires 0 <= m < 0x10000
    ensures ParseHex4(Hex4(m)) == m
  {
    Nibbles(m);
    var h := Hex4(m);
    HexDigitRoundTrip(m / 4096);
    HexDigitRoundTrip((m / 256) % 16);
    HexDigitRoundTrip((m / 16) % 16);
    HexDigitRoundTrip(m % 16);
    assert HexDigitValue(h[0]) == m / 4096;
    assert HexDigitValue(h[1]) == (m / 256) % 16;
    assert HexDigitValue(h[2]) == (m / 16) % 16;
    assert HexDigitValue(h[3]) == m % 16;
  }

  /** Four hex digits, read as one number and split again, give back the digits. */
  lemma Unnibbles(d0: int, d1: int, d2: int, d3: int)
    requires 0 <= d0 < 16 && 0 <= d1 < 16 && 0 <= d2 < 16 && 0 <= d3 < 16
    ensures var m := 4096 * d0 + 256 * d1 + 16 * d2 + d3;
            m / 4096 == d0 && (m / 256) % 16 == d1 && (m / 16) % 16 == d2 && m % 16 == d3
  {
    var m := 4096 * d0 + 256 * d1 + 16 * d2 + d3;
    assert m / 16 == 256 * d0 + 16 * d1 + d2;
    assert m / 256 == 16 * d0 + d1;
  }

  lemma ParseHex4RoundTrip(s: string)
    requires |s| == 4
    requires forall i :: 0 <= i < 4 ==> IsHexDigit(s[i])
    ensures Hex4(ParseHex4(s)) == s
  {
    Unnibbles(HexDigitValue(s[0]), HexDigitValue(s[1]), HexDigitValue(s[2]), HexDigitValue(s[3]));
  }

  /** The successive quotients by 16 of a draw: each is a hex digit of the low 16 bits
      above a leading `1`. */
  lemma DrawQuotients(n: int)
    requires InDrawRange(n)
    ensures var m := n - 0x10000;
            && n / 16 == 0x1000 + m / 16 && n % 16 == m % 16
            && (n / 16) / 16 == 0x100 + m / 256 && (n / 16) % 16 == (m / 16) % 16
            && ((n / 16) / 16) / 16 == 0x10 + m / 4096 && ((n / 16) / 16) % 16 == (m / 256) % 16
            && (((n / 16) / 16) / 16) / 16 == 1 && (((n / 16) / 16) / 16) % 16 == m / 4096
  {
    var m := n - 0x10000;
    var q1, q2, q3 := n / 16, n / 256, n / 4096;
    assert q1 == 0x1000 + m / 16 && n % 16 == m % 16;
    assert q1 / 16 == q2 && q2 == 0x100 + m / 256 && q1 % 16 == (m / 16) % 16;
    assert q2 / 16 == q3 && q3 == 0x10 + m / 4096 && q2 % 16 == (m / 256) % 16;
  }

  /** For a value in the draw range, `toString(16)` gives five digits, the first a `1`. */
  lemma {:induction false} ToHexOfDraw(n: int)
    requires InDrawRange(n)
    ensures ToHex(n) == ['1'] + Hex4(n - 0x10000)
  {
    var m := n - 0x10000;
    DrawQuotients(n);
    var q1 := n / 16;
    var q2 := q1 / 16;
    var q3 := q2 / 16;
    assert ToHex(q3) == ToHex(1) + [HexDigit(m / 4096)];
    assert ToHex(q2) == ToHex(q3) + [HexDigit((m / 256) % 16)];
    assert ToHex(q1) == ToHex(q2) + [HexDigit((m / 16) % 16)];
    assert ToHex(n) == ToHex(q1) + [HexDigit(m % 16)];
  }

  /** One `s4()` group: the draw in hex with its leading `1` dropped. */
  function S4(n: int): (r: string)
    requires InDrawRange(n)
    ensures r == Hex4(n - 0x10000)
  {
    ToHexOfDraw(n);
    ToHex(n)[1..]
  }

  /** Eight draws, one per `s4()` call of `uuid()`, in call order. */
  predicate ValidDraws(g: seq<int>) {
    |g| == 8 && forall i :: 0 <= i < 8 ==> InDrawRange(g[i])
  }

  const DashPositions: set<int> := {8, 13, 18, 23}

  /** The 8-4-4-4-12 shape: 36 characters, dashes at 8, 13, 18 and 23, lower-case hex elsewhere. */
  predicate IsUidShape(r: string) {
    && |r| == 36
    && forall i :: 0 <= i < 36 ==> if i in DashPositions then r[i] == '-' else IsHexDigit(r[i])
  }

  /** Where the j-th four-digit group starts inside a uid. */
  function GroupStart(j: int): int
    requires 0 <= j < 8
  {
    [0, 4, 9, 14, 19, 24, 28, 32][j]
  }

  /** The group a non-dash position of a uid belongs to. */
  function GroupOf(i: int): (j: int)
    requires 0 <= i < 36 && i !in DashPositions
    ensures 0 <= j < 8 && GroupStart(j) <= i < GroupStart(j) + 4
  {
    if i < 4 then 0 else if i < 8 then 1 else if i < 13 then 2 else if i < 18 then 3
    else if i < 23 then 4 else if i < 28 then 5 else if i < 32 then 6 else 7
  }

  /** The draws a uid-shaped string was generated from. */
  function Draws(r: string): (g: seq<int>)
    requires IsUidShape(r)
    ensures ValidDraws(g)
  {
    seq(8, j requires 0 <= j < 8 => 0x10000 + ParseHex4(r[GroupStart(j)..GroupStart(j) + 4]))
  }

  /** Left-to-right concatenation of string pieces, as a chain of `+` builds it. */
  function Concat(ps: seq<string>): string {
    if ps == [] then [] else Concat(ps[..|ps| - 1]) + ps[|ps| - 1]
  }

  /** Each piece can be cut back out of the concatenation at the summed length of the pieces before it. */
  lemma {:induction false} ConcatPiece(ps: seq<string>, k: int)
    requires 0 <= k < |ps|
    ensures |Concat(ps[..k])| + |ps[k]| <= |Concat(ps)|
    ensures Concat(ps)[|Concat(ps[..k])|..|Concat(ps[..k])| + |ps[k]|] == ps[k]
  {
    var n := |ps|;
    assert ps[..n - 1][..k] == ps[..k];
    if k < n - 1 {
      ConcatPiece(ps[..n - 1], k);
      assert ps[..n - 1][k] == ps[k];
    } else {
      assert ps[..n - 1] == ps[..k];
    }
  }

  /** The twelve pieces `uuid()` concatenates: eight groups and four dashes. */
  function Pieces(g: seq<int>): (ps: seq<string>)
    requires ValidDraws(g)
  {
    [S4(g[0]), S4(g[1]), "-", S4(g[2]), "-", S4(g[3]), "-", S4(g[4]), "-", S4(g[5]), S4(g[6]), S4(g[7])]
  }

  /** `uuid()` for the given draws: its twelve pieces joined left to right. Every
      generated uid has the 8-4-4-4-12 lower-case hex shape, and the draws can be read
      back from it, so distinct draws give distinct uids. */
  function Uuid(g: seq<int>): (r: string)
    requires ValidDraws(g)
    ensures IsUidShape(r) && Draws(r) == g
  {
    JoinedDraws(g);
    Concat(Pieces(g))
  }

  /** Which of the twelve pieces holds group j. */
  function PieceOfGroup(j: int): int
    requires 0 <= j < 8
  {
    [0, 1, 3, 5, 7, 9, 10, 11][j]
  }

  /** Twelve pieces laid out as `uuid()` lays them out: four-character groups, dashes at pieces 2, 4, 6 and 8. */
  predicate UidPieces(ps: seq<string>) {
    && |ps| == 12
    && forall k :: 0 <= k < 12 ==> if k in {2, 4, 6, 8} then ps[k] == "-" else |ps[k]| == 4
  }

  /** Summed length of the first k pieces. */
  function PieceOffset(k: int): int
    requires 0 <= k <= 12
  {
    [0, 4, 8, 9, 13, 14, 18, 19, 23, 24, 28, 32, 36][k]
  }

  lemma {:induction false} PrefixLength(ps: seq<string>, k: int)
    requires UidPieces(ps) && 0 <= k <= 12
    ensures |Concat(ps[..k])| == PieceOffset(k)
  {
    if k > 0 {
      PrefixLength(ps, k - 1);
      assert ps[..k][..k - 1] == ps[..k - 1];
      assert |Concat(ps[..k])| == |Concat(ps[..k - 1])| + |ps[k - 1]|;
    }
  }

  lemma PieceAt(ps: seq<string>, k: int)
    requires UidPieces(ps) && 0 <= k < 12
    ensures |Concat(ps)| == 36
    ensures Concat(ps)[PieceOffset(k)..PieceOffset(k) + |ps[k]|] == ps[k]
  {
    PrefixLength(ps, 12);
    assert ps[..12] == ps;
    PrefixLength(ps, k);
    ConcatPiece(ps, k);
  }

  /** Twelve laid-out pieces concatenate to 36 characters, with group j at `GroupStart(j)` and dashes between. */
  lemma ConcatLayout(ps: seq<string>)
    requires UidPieces(ps)
    ensures |Concat(ps)| == 36
    ensures forall j :: 0 <= j < 8 ==> Concat(ps)[GroupStart(j)..GroupStart(j) + 4] == ps[PieceOfGroup(j)]
    ensures forall i :: i in DashPositions ==> Concat(ps)[i] == '-'
  {
    var r := Concat(ps);
    PieceAt(ps, 0);
    forall j | 0 <= j < 8
      ensures r[GroupStart(j)..GroupStart(j) + 4] == ps[PieceOfGroup(j)]
    {
      PieceAt(ps, PieceOfGroup(j));
    }
    forall i | i in DashPositions
      ensures r[i] == '-'
    {
      var k := if i == 8 then 2 else if i == 13 then 4 else if i == 18 then 6 else 8;
      PieceAt(ps, k);
      assert r[i] == r[i..i + 1][0];
    }
  }

  /** Each of the twelve pieces is a four-digit group or a dash, as `UidPieces` says. */
  lemma PiecesLaidOut(g: seq<int>)
    requires ValidDraws(g)
    ensures UidPieces(Pieces(g))
  {
    var ps := Pieces(g);
    forall k | 0 <= k < 12
      ensures if k in {2, 4, 6, 8} then ps[k] == "-" else |ps[k]| == 4
    {
      if k !in {2, 4, 6, 8} {
        assert ps[k] in {S4(g[0]), S4(g[1]), S4(g[2]), S4(g[3]), S4(g[4]), S4(g[5]), S4(g[6]), S4(g[7])};
      }
    }
  }

  lemma PiecesLayout(g: seq<int>)
    requires ValidDraws(g)
    ensures UidPieces(Pieces(g))
    ensures forall j :: 0 <= j < 8 ==> Pieces(g)[PieceOfGroup(j)] == Hex4(g[j] - 0x10000)
  {
    PiecesLaidOut(g);
    var ps := Pieces(g);
    forall j | 0 <= j < 8
      ensures ps[PieceOfGroup(j)] == Hex4(g[j] - 0x10000)
    {
      assert ps[PieceOfGroup(j)] == S4(g[j]);
    }
  }

  /** The joined pieces are 36 characters, with group j at `GroupStart(j)` and dashes between. */
  lemma JoinedGroups(g: seq<int>)
    requires ValidDraws(g)
    ensures |Concat(Pieces(g))| == 36
    ensures forall j :: 0 <= j < 8 ==> Concat(Pieces(g))[GroupStart(j)..GroupStart(j) + 4] == Hex4(g[j] - 0x10000)
    ensures forall i :: i in DashPositions ==> Concat(Pieces(g))[i] == '-'
  {
    PiecesLayout(g);
    ConcatLayout(Pieces(g));
  }

  lemma JoinedShape(g: seq<int>)
    requires ValidDraws(g)
    ensures IsUidShape(Concat(Pieces(g)))
  {
    var r := Concat(Pieces(g));
    JoinedGroups(g);
    forall i | 0 <= i < 36 && i !in DashPositions
      ensures IsHexDigit(r[i])
    {
      var j := GroupOf(i);
      assert r[i] == r[GroupStart(j)..GroupStart(j) + 4][i - GroupStart(j)];
    }
  }

  /** A group that prints as `Hex4(m)` is read back as the draw `0x10000 + m`. */
  lemma DrawOfGroup(r: string, j: int, m: int)
    requires IsUidShape(r) && 0 <= j < 8 && 0 <= m < 0x10000
    requires r[GroupStart(j)..GroupStart(j) + 4] == Hex4(m)
    ensures Draws(r)[j] == 0x10000 + m
  {
    Hex4RoundTrip(m);
  }

  lemma JoinedDraws(g: seq<int>)
    requires ValidDraws(g)
    ensures IsUidShape(Concat(Pieces(g))) && Draws(Concat(Pieces(g))) == g
  {
    var r := Concat(Pieces(g));
    JoinedShape(g);
    JoinedGroups(g);
    forall j | 0 <= j < 8
      ensures Draws(r)[j] == g[j]
    {
      DrawOfGroup(r, j, g[j] - 0x10000);
    }
  }

  /** `uuid()` is 36 characters, with the eight `s4()` groups at their offsets and dashes between. */
  lemma UuidGroups(g: seq<int>)
    requires ValidDraws(g)
    ensures |Uuid(g)| == 36
    ensures forall j :: 0 <= j < 8 ==> Uuid(g)[GroupStart(j)..GroupStart(j) + 4] == Hex4(g[j] - 0x10000)
    ensures forall i :: i in DashPositions ==> Uuid(g)[i] == '-'
  {
    JoinedGroups(g);
  }

  /** Two strings of length 36 that agree on every group and every dash position are equal. */
  lemma SameGroupsEqual(u: string, r: string)
    requires |u| == 36 && |r| == 36
    requires forall j :: 0 <= j < 8 ==> u[GroupStart(j)..GroupStart(j) + 4] == r[GroupStart(j)..GroupStart(j) + 4]
    requires forall i :: i in DashPositions ==> u[i] == r[i]
    ensures u == r
  {
    forall i | 0 <= i < 36
      ensures u[i] == r[i]
    {
      if i !in DashPositions {
        var gs := GroupStart(GroupOf(i));
        assert u[i] == u[gs..gs + 4][i - gs];
        assert r[i] == r[gs..gs + 4][i - gs];
      }
    }
  }

  /** Reading the draws of a uid-shaped string and printing them again gives back each group. */
  lemma DrawsGroups(r: string)
    requires IsUidShape(r)
    ensures forall j :: 0 <= j < 8 ==> Hex4(Draws(r)[j] - 0x10000) == r[GroupStart(j)..GroupStart(j) + 4]
  {
    forall j | 0 <= j < 8
      ensures Hex4(Draws(r)[j] - 0x10000) == r[GroupStart(j)..GroupStart(j) + 4]
    {
      var gs := GroupStart(j);
      var piece := r[gs..gs + 4];
      forall i | 0 <= i < 4
        ensures IsHexDigit(piece[i])
      {
        assert piece[i] == r[gs + i] && gs + i !in DashPositions;
      }
      ParseHex4RoundTrip(piece);
    }
  }

  /** Draws whose groups print as the groups of a uid-shaped string generate exactly that string. */
  lemma UuidOfMatchingDraws(g: seq<int>, r: string)
    requires ValidDraws(g) && IsUidShape(r)
    requires forall j :: 0 <= j < 8 ==> Hex4(g[j] - 0x10000) == r[GroupStart(j)..GroupStart(j) + 4]
    ensures Uuid(g) == r
  {
    UuidGroups(g);
    SameGroupsEqual(Uuid(g), r);
  }

  /** Every string of the 8-4-4-4-12 shape is the uid of some draws: the shape is exactly the image of `uuid()`. */
  lemma UidShapeIsGenerated(r: string)
    requires IsUidShape(r)
    ensures Uuid(Draws(r)) == r
  {
    DrawsGroups(r);
    UuidOfMatchingDraws(Draws(r), r);
  }
}
