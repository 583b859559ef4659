/**
  The text buffer of src/editor.c: rows of fixed capacity edited in place, read as
  a document; its text is what serialize_into writes, every line with its newline.
 */
module Editor {
  const MAX_LINES: nat := 1024
  const MAX_COLS: nat := 256
  const UNDO_MAX: nat := 16
  const UNDO_CAP: nat := 65536

  type Doc = seq<string>

  /** The document as one text. */
  function Text(d: Doc): string {
    if d == [] then "" else d[0] + "\n" + Text(d[1..])
  }

  /** Where column `x` of line `y` is in the text. */
  function Offset(d: Doc, y: nat, x: nat): nat
    requires y < |d|
  {
    |Text(d[..y])| + x
  }

  lemma {:induction false} TextConcat(a: Doc, b: Doc)
    ensures Text(a + b) == Text(a) + Text(b)
  {
    if a == [] {
      assert a + b == b;
    } else {
      assert (a + b)[1..] == a[1..] + b;
      TextConcat(a[1..], b);
    }
  }

  /** What follows line `y` in the text, its newline included. */
  function After(d: Doc, y: nat): string
    requires y < |d|
  {
    "\n" + Text(d[y + 1..])
  }

  lemma TextAround(d: Doc, y: nat)
    requires y < |d|
    ensures Text(d) == Text(d[..y]) + (d[y] + After(d, y))
  {
    assert d == d[..y] + d[y..];
    TextConcat(d[..y], d[y..]);
    assert d[y..][1..] == d[y + 1..];
    Assoc(d[y], "\n", Text(d[y + 1..]));
  }

  lemma Assoc(a: string, b: string, c: string)
    ensures a + b + c == a + (b + c)
  {
  }

  // ----- Edits of a document -----

  function InsertChar(d: Doc, y: nat, x: nat, c: char): Doc
    requires y < |d| && x <= |d[y]|
  {
    d[y := d[y][..x] + [c] + d[y][x..]]
  }

  function SplitLine(d: Doc, y: nat, x: nat): Doc
    requires y < |d| && x <= |d[y]|
  {
    d[..y] + [d[y][..x], d[y][x..]] + d[y + 1..]
  }

  function DeleteChar(d: Doc, y: nat, x: nat): Doc
    requires y < |d| && x < |d[y]|
  {
    d[y := d[y][..x] + d[y][x + 1..]]
  }

  function Clip(s: string): string {
    if |s| <= MAX_COLS then s else s[..MAX_COLS]
  }

  /** Lines `y` and `y + 1` become one, cut to the capacity of a line. */
  function JoinLines(d: Doc, y: nat): Doc
    requires y + 1 < |d|
  {
    d[..y] + [Clip(d[y] + d[y + 1])] + d[y + 2..]
  }

  /** The text with one character inserted or deleted at `o`. */
  function Inserted(t: string, o: nat, c: char): string
    requires o <= |t|
  {
    t[..o] + [c] + t[o..]
  }

  function Deleted(t: string, o: nat): string
    requires o < |t|
  {
    t[..o] + t[o + 1..]
  }

  lemma InsertIn(p: string, s: string, q: string, x: nat, c: char)
    requires x <= |s|
    ensures Inserted(p + (s + q), |p| + x, c) == p + ((s[..x] + [c] + s[x..]) + q)
  {
    var t := p + (s + q);
    assert t[..|p| + x] == p + s[..x];
    assert t[|p| + x..] == s[x..] + q;
  }

  lemma DeleteIn(p: string, s: string, q: string, x: nat)
    requires x < |s|
    ensures Deleted(p + (s + q), |p| + x) == p + ((s[..x] + s[x + 1..]) + q)
  {
    var t := p + (s + q);
    assert t[..|p| + x] == p + s[..x];
    assert t[|p| + x + 1..] == s[x + 1..] + q;
  }

  /** A document that differs from `d` in line `y` alone. */
  lemma TextOfUpdate(d: Doc, y: nat, line: string)
    requires y < |d|
    ensures Text(d[y := line]) == Text(d[..y]) + (line + After(d, y))
  {
    var e := d[y := line];
    TextAround(e, y);
    assert e[..y] == d[..y] && e[y + 1..] == d[y + 1..];
  }

  /** A text with line `y` of `d` changed by one more character. */
  lemma InsertedAs(d: Doc, y: nat, x: nat, c: char, t: string)
    requires y < |d| && x <= |d[y]| && t == Text(d[..y]) + ((d[y][..x] + [c] + d[y][x..]) + After(d, y))
    ensures Offset(d, y, x) <= |Text(d)| && t == Inserted(Text(d), Offset(d, y, x), c)
  {
    TextAround(d, y);
    InsertIn(Text(d[..y]), d[y], After(d, y), x, c);
  }

  /** insert_char is one character more in the text. */
  lemma InsertCharText(d: Doc, y: nat, x: nat, c: char)
    requires y < |d| && x <= |d[y]|
    ensures Offset(d, y, x) <= |Text(d)|
    ensures Text(InsertChar(d, y, x, c)) == Inserted(Text(d), Offset(d, y, x), c)
  {
    TextOfUpdate(d, y, d[y][..x] + [c] + d[y][x..]);
    InsertedAs(d, y, x, c, Text(InsertChar(d, y, x, c)));
  }

  lemma DeleteCharText(d: Doc, y: nat, x: nat)
    requires y < |d| && x < |d[y]|
    ensures Offset(d, y, x) < |Text(d)|
    ensures Text(DeleteChar(d, y, x)) == Deleted(Text(d), Offset(d, y, x))
  {
    TextAround(d, y);
    TextOfUpdate(d, y, d[y][..x] + d[y][x + 1..]);
    DeleteIn(Text(d[..y]), d[y], After(d, y), x);
  }

  lemma TwoLines(a: string, b: string, t: string)
    ensures a + "\n" + (b + "\n" + t) == (a + ['\n'] + b) + ("\n" + t)
  {
    assert "\n" == ['\n'];
  }

  lemma TextOfSplit(d: Doc, y: nat, x: nat)
    requires y < |d| && x <= |d[y]|
    ensures Text(SplitLine(d, y, x)) == Text(d[..y]) + ((d[y][..x] + ['\n'] + d[y][x..]) + After(d, y))
  {
    var e := SplitLine(d, y, x);
    TextOfPair(e, y);
    assert e[..y] == d[..y] && e[y] == d[y][..x] && e[y + 1] == d[y][x..] && e[y + 2..] == d[y + 1..];
  }

  /** insert_newline is a newline more in the text. */
  lemma SplitLineText(d: Doc, y: nat, x: nat)
    requires y < |d| && x <= |d[y]|
    ensures Offset(d, y, x) <= |Text(d)|
    ensures Text(SplitLine(d, y, x)) == Inserted(Text(d), Offset(d, y, x), '\n')
  {
    TextOfSplit(d, y, x);
    InsertedAs(d, y, x, '\n', Text(SplitLine(d, y, x)));
  }

  lemma TextOfJoined(d: Doc, y: nat)
    requires y + 1 < |d|
    ensures Text(JoinLines(d, y)) == Text(d[..y]) + (Clip(d[y] + d[y + 1]) + After(d, y + 1))
  {
    var line := Clip(d[y] + d[y + 1]);
    var e := JoinLines(d, y);
    TextAround(e, y);
    assert e[..y] == d[..y] && e[y] == line && e[y + 1..] == d[y + 2..];
  }

  lemma TextOfPair(d: Doc, y: nat)
    requires y + 1 < |d|
    ensures Text(d) == Text(d[..y]) + ((d[y] + ['\n'] + d[y + 1]) + After(d, y + 1))
  {
    TextAround(d, y);
    assert d[y + 1..][1..] == d[y + 2..] && d[y + 1..][0] == d[y + 1];
    Rearranged(d[y], d[y + 1], Text(d[y + 2..]));
  }

  lemma Rearranged(a: string, b: string, t: string)
    ensures a + ("\n" + (b + "\n" + t)) == (a + ['\n'] + b) + ("\n" + t)
  {
    Assoc(a, "\n", b + "\n" + t);
    TwoLines(a, b, t);
  }

  lemma ClippedOrNot(p: string, s: string, q: string)
    ensures p + (Clip(s) + q) == p + (s + q) <==> |s| <= MAX_COLS
  {
    assert |p + (s + q)| == |p| + |s| + |q| && |p + (Clip(s) + q)| == |p| + |Clip(s)| + |q|;
  }

  lemma NewlineDeleted(p: string, a: string, b: string, q: string)
    ensures Deleted(p + ((a + ['\n'] + b) + q), |p| + |a|) == p + ((a + b) + q)
  {
    var s := a + ['\n'] + b;
    DeleteIn(p, s, q, |a|);
    assert s[..|a|] == a && s[|a| + 1..] == b;
  }

  /** Joining lines deletes the newline between them, exactly when the joined line fits. */
  lemma JoinLinesText(d: Doc, y: nat)
    requires y + 1 < |d|
    ensures Offset(d, y, |d[y]|) < |Text(d)|
    ensures Text(JoinLines(d, y)) == Deleted(Text(d), Offset(d, y, |d[y]|)) <==> |d[y]| + |d[y + 1]| <= MAX_COLS
  {
    TextOfJoined(d, y);
    TextOfPair(d, y);
    NewlineDeleted(Text(d[..y]), d[y], d[y + 1], After(d, y + 1));
    ClippedOrNot(Text(d[..y]), d[y] + d[y + 1], After(d, y + 1));
  }

  function Repeated(c: char, n: nat): string {
    seq(n, _ => c)
  }

  /** Joining two lines of 200 columns loses the newline and 144 characters. */
  lemma LongJoinLosesText()
    ensures var d := [Repeated('a', 200), Repeated('b', 200)];
            |Text(JoinLines(d, 0))| + 145 == |Text(d)| && Text(JoinLines(d, 0)) != Deleted(Text(d), Offset(d, 0, 200))
  {
    var a, b := Repeated('a', 200), Repeated('b', 200);
    var d := [a, b];
    assert d[1..] == [b] && d[1..][1..] == [];
    assert JoinLines(d, 0) == [(a + b)[..MAX_COLS]];
    assert JoinLines(d, 0)[1..] == [];
    JoinLinesText(d, 0);
  }

  // ----- Parsing -----

  /** buffer_from_text, from a state of `lines` closed lines and the open line `cur`. */
  function ParseFrom(t: string, lines: Doc, cur: string): Doc
    decreases |t|
  {
    if t == "" || |lines| >= MAX_LINES then
      (if (cur != "" || lines == []) && |lines| < MAX_LINES then lines + [cur] else lines)
    else if t[0] == '\n' then ParseFrom(t[1..], lines + [cur], "")
    else if t[0] == '\r' then ParseFrom(t[1..], lines, cur)
    else ParseFrom(t[1..], lines, if |cur| < MAX_COLS then cur + [t[0]] else cur)
  }

  function Parse(t: string): Doc {
    ParseFrom(t, [], "")
  }

  predicate CleanLine(s: string) {
    |s| <= MAX_COLS && '\n' !in s && '\r' !in s
  }

  predicate CleanDoc(d: Doc) {
    1 <= |d| <= MAX_LINES && forall i :: 0 <= i < |d| ==> CleanLine(d[i])
  }

  lemma {:induction false} ParseLine(cur: string, s: string, rest: string, lines: Doc)
    requires CleanLine(cur + s) && |lines| < MAX_LINES
    ensures ParseFrom(s + "\n" + rest, lines, cur) == ParseFrom(rest, lines + [cur + s], "")
    decreases |s|
  {
    var t := s + "\n" + rest;
    if s == "" {
      assert t == "\n" + rest && t[1..] == rest && cur + s == cur;
    } else {
      assert t[1..] == s[1..] + "\n" + rest;
      assert s[0] in cur + s;
      assert cur + s == (cur + [s[0]]) + s[1..];
      ParseLine(cur + [s[0]], s[1..], rest, lines);
    }
  }

  lemma {:induction false} ParseRest(d: Doc, k: nat)
    requires CleanDoc(d) && 0 < k <= |d|
    ensures ParseFrom(Text(d[k..]), d[..k], "") == d
    decreases |d| - k
  {
    if k == |d| {
      assert d[k..] == [] && d[..k] == d;
    } else {
      assert d[k..][1..] == d[k + 1..] && "" + d[k] == d[k];
      ParseLine("", d[k], Text(d[k + 1..]), d[..k]);
      assert d[..k] + [d[k]] == d[..k + 1];
      ParseRest(d, k + 1);
    }
  }

  /** Parsing what was serialized gives the document back. */
  lemma ParseSerialized(d: Doc)
    requires CleanDoc(d)
    ensures Parse(Text(d)) == d
  {
    assert "" + d[0] == d[0];
    ParseLine("", d[0], Text(d[1..]), []);
    assert [] + [d[0]] == d[..1];
    ParseRest(d, 1);
  }

  /** The pieces with a newline between each two. */
  function Joined(ps: Doc): string
    requires ps != []
  {
    if |ps| == 1 then ps[0] else ps[0] + "\n" + Joined(ps[1..])
  }

  predicate NoNewlines(ps: Doc) {
    forall i :: 0 <= i < |ps| ==> '\n' !in ps[i]
  }

  /** Every text is a list of pieces with newlines between them. */
  lemma {:induction false} EveryTextIsJoined(t: string) returns (ps: Doc)
    ensures ps != [] && NoNewlines(ps) && Joined(ps) == t
    decreases |t|
  {
    if t == "" {
      ps := [""];
    } else {
      var qs := EveryTextIsJoined(t[1..]);
      if t[0] == '\n' {
        ps := [""] + qs;
        assert ps[1..] == qs && "" + "\n" + t[1..] == t;
      } else {
        ps := [[t[0]] + qs[0]] + qs[1..];
        assert ps[1..] == qs[1..];
        assert t == [t[0]] + t[1..];
        if |qs| > 1 {
          assert [t[0]] + qs[0] + "\n" + Joined(qs[1..]) == [t[0]] + (qs[0] + "\n" + Joined(qs[1..]));
        }
      }
    }
  }

  function WithoutCr(t: string): string {
    if t == "" then "" else (if t[0] == '\r' then "" else [t[0]]) + WithoutCr(t[1..])
  }

  /** At most the first 256 columns of a piece. */
  function Clipped(s: string): string {
    if |s| <= 256 then s else s[..256]
  }

  /** The lines of a list of pieces: an empty last piece is the end of the line before it, unless it is all there is. */
  function LinesOf(ps: Doc): (d: Doc)
    requires ps != []
  {
    if |ps| > 1 && ps[|ps| - 1] == "" then ps[..|ps| - 1] else ps
  }

  /** The first 1024 of them, clipped. */
  function Shown(d: Doc): Doc {
    var n := if |d| < 1024 then |d| else 1024;
    seq(n, i requires 0 <= i < n => Clipped(d[i]))
  }

  /** Carriage returns make no difference, wherever they are. */
  lemma {:induction false} CrIgnored(t: string, lines: Doc, cur: string)
    ensures ParseFrom(t, lines, cur) == ParseFrom(WithoutCr(t), lines, cur)
    decreases |t|
  {
    if t != "" {
      var u := WithoutCr(t);
      if t[0] == '\r' {
        assert u == WithoutCr(t[1..]);
        CrIgnored(t[1..], lines, cur);
      } else {
        assert u[0] == t[0] && u[1..] == WithoutCr(t[1..]);
        if t[0] == '\n' {
          CrIgnored(t[1..], lines + [cur], "");
        } else {
          CrIgnored(t[1..], lines, if |cur| < MAX_COLS then cur + [t[0]] else cur);
        }
      }
      if |lines| >= MAX_LINES {
        assert ParseFrom(t, lines, cur) == lines == ParseFrom(u, lines, cur);
      }
    }
  }

  lemma ParseIgnoresCr(t: string)
    ensures Parse(t) == Parse(WithoutCr(t))
  {
    CrIgnored(t, [], "");
  }

  predicate Plain(s: string) {
    '\n' !in s && '\r' !in s
  }

  /** A piece is read into the open line, as far as it fits. */
  lemma {:induction false} ParsePiece(cur: string, s: string, rest: string, lines: Doc)
    requires Plain(s) && |cur| <= MAX_COLS && |lines| < MAX_LINES
    ensures ParseFrom(s + rest, lines, cur) == ParseFrom(rest, lines, Clipped(cur + s))
    decreases |s|
  {
    if s == "" {
      assert s + rest == rest && cur + s == cur;
    } else {
      var cur' := if |cur| < MAX_COLS then cur + [s[0]] else cur;
      assert s[0] in s && (s + rest)[1..] == s[1..] + rest;
      ParsePiece(cur', s[1..], rest, lines);
      assert Clipped(cur' + s[1..]) == Clipped(cur + s);
    }
  }

  /** Parsing from the start of a piece, after the lines that came before it. */
  lemma {:induction false} ParsePieces(ps: Doc, k: nat)
    requires k < |ps| && forall i :: 0 <= i < |ps| ==> Plain(ps[i])
    ensures ParseFrom(Joined(ps[k..]), Shown(ps[..k]), "") == Shown(LinesOf(ps))
    decreases |ps| - k
  {
    if k >= MAX_LINES {
      assert Shown(ps[..k]) == Shown(LinesOf(ps));
    } else {
      var here := Shown(ps[..k]);
      assert "" + ps[k] == ps[k];
      if k + 1 == |ps| {
        assert ps[k..] == [ps[k]] && ps[k] + "" == ps[k];
        ParsePiece("", ps[k], "", here);
        LastPiece(ps);
      } else {
        var rest := Joined(ps[k + 1..]);
        assert ps[k..][1..] == ps[k + 1..];
        assert Joined(ps[k..]) == ps[k] + ("\n" + rest);
        ParsePiece("", ps[k], "\n" + rest, here);
        assert ("\n" + rest)[1..] == rest;
        assert here + [Clipped(ps[k])] == Shown(ps[..k + 1]);
        ParsePieces(ps, k + 1);
      }
    }
  }

  lemma LastPiece(ps: Doc)
    requires 0 < |ps| <= MAX_LINES
    ensures var (last, here) := (Clipped(ps[|ps| - 1]), Shown(ps[..|ps| - 1]));
            Shown(LinesOf(ps)) == if last != "" || here == [] then here + [last] else here
  {
  }

  /**
    What a text parses to, whatever it is: take out the carriage returns, cut it at the newlines, drop an empty last
    piece that is not the only one, and keep the first 1024 lines and the first 256 columns of each.
   */
  lemma ParseIs(t: string, ps: Doc)
    requires ps != [] && NoNewlines(ps) && Joined(ps) == WithoutCr(t)
    ensures Parse(t) == Shown(LinesOf(ps))
  {
    ParseIgnoresCr(t);
    CrGone(t);
    PiecesPlain(ps);
    assert ps[0..] == ps && ps[..0] == [];
    ParsePieces(ps, 0);
  }

  lemma {:induction false} CrGone(t: string)
    ensures '\r' !in WithoutCr(t)
  {
    if t != "" {
      CrGone(t[1..]);
    }
  }

  lemma {:induction false} PiecesPlain(ps: Doc)
    requires ps != [] && NoNewlines(ps) && '\r' !in Joined(ps)
    ensures forall i :: 0 <= i < |ps| ==> Plain(ps[i])
  {
    if |ps| > 1 {
      var t := Joined(ps);
      assert forall c :: c in ps[0] ==> c in t;
      assert forall c :: c in Joined(ps[1..]) ==> c in t;
      PiecesPlain(ps[1..]);
      forall i | 0 <= i < |ps| ensures Plain(ps[i]) {
        assert i > 0 ==> ps[i] == ps[1..][i - 1];
      }
    }
  }

  /** A file without a final newline is read whole. */
  lemma UnfinishedLastLine(d: Doc)
    requires CleanDoc(d) && d[|d| - 1] != ""
    ensures Text(d) == Joined(d) + "\n" && Parse(Joined(d)) == d
  {
    TextJoined(d);
    forall i | 0 <= i < |d| ensures Plain(d[i]) && Clipped(d[i]) == d[i] {
      assert CleanLine(d[i]);
    }
    assert d[0..] == d && d[..0] == [];
    ParsePieces(d, 0);
    assert Shown(d) == d;
  }

  lemma {:induction false} TextJoined(d: Doc)
    requires d != []
    ensures Text(d) == Joined(d) + "\n"
  {
    if |d| > 1 {
      TextJoined(d[1..]);
      assert d[0] + "\n" + (Joined(d[1..]) + "\n") == d[0] + "\n" + Joined(d[1..]) + "\n";
    } else {
      assert d[1..] == [] && Text(d) == d[0] + "\n" + "";
    }
  }

  // ----- Rows -----

  const NUL: char := '\0'

  /** Rows of 257 characters: the text of a line and a NUL. */
  datatype Rows = Rows(lines: seq<seq<char>>, len: seq<nat>)

  ghost predicate RowOk(r: Rows, i: nat) {
    && i < |r.lines| && i < |r.len| && |r.lines[i]| == MAX_COLS + 1
    && r.len[i] <= MAX_COLS && r.lines[i][r.len[i]] == NUL
  }

  ghost predicate RowsOk(r: Rows, n: nat) {
    && |r.lines| == |r.len| == MAX_LINES && n <= MAX_LINES
    && (forall i :: 0 <= i < MAX_LINES ==> |r.lines[i]| == MAX_COLS + 1)
    && (forall i: nat {:trigger RowOk(r, i)} :: i < n ==> RowOk(r, i))
  }

  function RowText(r: Rows, i: nat): string
    requires i < |r.lines| && i < |r.len| && r.len[i] <= |r.lines[i]|
  {
    r.lines[i][..r.len[i]]
  }

  ghost function DocOf(r: Rows, n: nat): (d: Doc)
    requires RowsOk(r, n)
    ensures |d| == n && forall i: nat {:trigger d[i]} :: i < n ==> RowOk(r, i) && d[i] == RowText(r, i)
  {
    seq(n, i requires 0 <= i < n => assert RowOk(r, i); RowText(r, i))
  }

  /** Characters `from` to `from + n` of `src` over those at `at`. */
  method CopyChars(dst: seq<char>, at: nat, src: seq<char>, from: nat, n: nat) returns (r: seq<char>)
    requires at + n <= |dst| && from + n <= |src|
    ensures |r| == |dst| && forall k :: 0 <= k < |r| ==>
            r[k] == if at <= k < at + n then src[from + (k - at)] else dst[k]
  {
    r := dst;
    for j := 0 to n
      invariant |r| == |dst| && forall k :: 0 <= k < |r| ==>
                r[k] == if at <= k < at + j then src[from + (k - at)] else dst[k]
    {
      r := r[at + j := src[from + j]];
    }
  }

  /** The loop of insert_char: the tail moves right and `c` takes its place. */
  method ShiftIn(line: seq<char>, x: nat, len: nat, c: char) returns (r: seq<char>)
    requires x <= len && len + 2 <= |line|
    ensures |r| == |line| && r[..len + 1] == line[..x] + [c] + line[x..len] && r[len + 1] == NUL
  {
    r := line;
    var i := len;
    while i > x
      invariant x <= i <= len && |r| == |line|
      invariant forall k :: 0 <= k <= i ==> r[k] == line[k]
      invariant forall k :: i < k <= len ==> r[k] == line[k - 1]
    {
      r := r[i := r[i - 1]];
      i := i - 1;
    }
    r := r[x := c][len + 1 := NUL];
  }

  /** The loop of do_backspace and do_delete: the tail moves left over column `x`. */
  method ShiftOut(line: seq<char>, x: nat, len: nat) returns (r: seq<char>)
    requires x < len < |line|
    ensures |r| == |line| && r[..len - 1] == line[..x] + line[x + 1..len] && r[len - 1] == NUL
  {
    r := line;
    var i := x;
    while i + 1 < len
      invariant x <= i < len && |r| == |line|
      invariant forall k :: 0 <= k < x || i <= k < len ==> r[k] == line[k]
      invariant forall k :: x <= k < i ==> r[k] == line[k + 1]
    {
      r := r[i := r[i + 1]];
      i := i + 1;
    }
    r := r[len - 1 := NUL];
  }

  /** One row takes the text of another, NUL included. */
  method CopyRow(r: Rows, dst: nat, src: nat) returns (r': Rows)
    requires RowOk(r, src) && dst < |r.lines| && dst < |r.len| && |r.lines[dst]| == MAX_COLS + 1
    ensures RowOk(r', dst) && RowText(r', dst) == RowText(r, src)
    ensures r' == Rows(r.lines[dst := r'.lines[dst]], r.len[dst := r.len[src]])
  {
    var n := r.len[src];
    var line := CopyChars(r.lines[dst], 0, r.lines[src], 0, n + 1);
    assert line[..n] == r.lines[src][..n] && line[n] == NUL;
    r' := Rows(r.lines[dst := line], r.len[dst := r.len[src]]);
  }

  ghost predicate RowIs(r: Rows, i: nat, s: string) {
    RowOk(r, i) && RowText(r, i) == s
  }

  ghost predicate Shape(r: Rows) {
    |r.lines| == |r.len| == MAX_LINES && forall k :: 0 <= k < MAX_LINES ==> |r.lines[k]| == MAX_COLS + 1
  }

  /** Row `i` holds line `i + shift` of `d`. */
  ghost predicate HoldsLine(r: Rows, i: nat, d: Doc, shift: int) {
    0 <= i + shift < |d| && RowIs(r, i, d[i + shift])
  }

  lemma RowsHold(r: Rows, n: nat)
    requires RowsOk(r, n)
    ensures forall k: nat {:trigger HoldsLine(r, k, DocOf(r, n), 0)} :: k < n ==> HoldsLine(r, k, DocOf(r, n), 0)
  {
    forall k: nat | k < n ensures HoldsLine(r, k, DocOf(r, n), 0) {
      assert RowOk(r, k);
      var line := DocOf(r, n)[k];
    }
  }

  lemma DocIs(r: Rows, n: nat, d: Doc)
    requires Shape(r) && n <= MAX_LINES && |d| == n
    requires forall k: nat {:trigger HoldsLine(r, k, d, 0)} :: k < n ==> HoldsLine(r, k, d, 0)
    ensures RowsOk(r, n) && DocOf(r, n) == d
  {
    forall k: nat | k < n ensures RowOk(r, k) {
      assert HoldsLine(r, k, d, 0);
    }
    forall k: nat | k < n ensures DocOf(r, n)[k] == d[k] {
      assert HoldsLine(r, k, d, 0);
    }
  }

  /** The rows after `y` move down one place. */
  method OpenGap(r: Rows, n: nat, y: nat, ghost d: Doc) returns (r': Rows)
    requires RowsOk(r, n) && y < n < MAX_LINES && d == DocOf(r, n)
    ensures Shape(r')
    ensures forall k: nat {:trigger HoldsLine(r', k, d, 0)} :: k <= y ==> HoldsLine(r', k, d, 0)
    ensures forall k: nat {:trigger HoldsLine(r', k, d, -1)} :: y + 1 < k <= n ==> HoldsLine(r', k, d, -1)
  {
    r' := r;
    RowsHold(r, n);
    var i := n;
    while i > y + 1
      invariant y + 1 <= i <= n && Shape(r')
      invariant forall k: nat {:trigger HoldsLine(r', k, d, 0)} :: k < i ==> HoldsLine(r', k, d, 0)
      invariant forall k: nat {:trigger HoldsLine(r', k, d, -1)} :: i < k <= n ==> HoldsLine(r', k, d, -1)
    {
      assert HoldsLine(r', i - 1, d, 0);
      ghost var was := r';
      r' := CopyRow(r', i, i - 1);
      forall k: nat | k < i - 1 ensures HoldsLine(r', k, d, 0) {
        assert HoldsLine(was, k, d, 0);
      }
      forall k: nat | i - 1 < k <= n ensures HoldsLine(r', k, d, -1) {
        assert k > i ==> HoldsLine(was, k, d, -1);
      }
      i := i - 1;
    }
  }

  /** delete_line: the rows after `row` move up one place. */
  method CloseGap(r: Rows, n: nat, row: nat) returns (r': Rows)
    requires RowsOk(r, n) && row < n
    ensures RowsOk(r', n - 1) && DocOf(r', n - 1) == DocOf(r, n)[..row] + DocOf(r, n)[row + 1..]
  {
    r' := r;
    ghost var d := DocOf(r, n);
    RowsHold(r, n);
    var i := row;
    while i + 1 < n
      invariant row <= i < n && Shape(r')
      invariant forall k: nat {:trigger HoldsLine(r', k, d, 0)} :: k < row || i < k < n ==> HoldsLine(r', k, d, 0)
      invariant forall k: nat {:trigger HoldsLine(r', k, d, 1)} :: row <= k < i ==> HoldsLine(r', k, d, 1)
    {
      assert HoldsLine(r', i + 1, d, 0);
      ghost var was := r';
      r' := CopyRow(r', i, i + 1);
      forall k: nat | k < row || i + 1 < k < n ensures HoldsLine(r', k, d, 0) {
        assert HoldsLine(was, k, d, 0);
      }
      forall k: nat | row <= k < i + 1 ensures HoldsLine(r', k, d, 1) {
        assert k < i ==> HoldsLine(was, k, d, 1);
      }
      i := i + 1;
    }
    ghost var e := d[..row] + d[row + 1..];
    forall k: nat | k < n - 1 ensures HoldsLine(r', k, e, 0) {
      if k < row {
        assert HoldsLine(r', k, d, 0) && e[k] == d[k];
      } else {
        assert HoldsLine(r', k, d, 1) && e[k] == d[k + 1];
      }
    }
    DocIs(r', n - 1, e);
  }

  /** join_into: row `y + 1` is appended to row `y`, as far as there is room. */
  method AppendRow(r: Rows, n: nat, y: nat) returns (r': Rows)
    requires RowsOk(r, n) && y + 1 < n
    ensures RowsOk(r', n) && DocOf(r', n) == DocOf(r, n)[y := Clip(DocOf(r, n)[y] + DocOf(r, n)[y + 1])]
  {
    assert RowOk(r, y) && RowOk(r, y + 1);
    var room := MAX_COLS - r.len[y];
    var k := if r.len[y + 1] > room then room else r.len[y + 1];
    var line := CopyChars(r.lines[y], r.len[y], r.lines[y + 1], 0, k);
    line := line[r.len[y] + k := NUL];
    r' := Rows(r.lines[y := line], r.len[y := r.len[y] + k]);
    ghost var d := DocOf(r, n);
    var joined := Clip(RowText(r, y) + RowText(r, y + 1));
    assert RowText(r', y) == joined;
    Updated(r, r', n, y, joined);
  }

  /** Only row `y` changed. */
  lemma Updated(r: Rows, r': Rows, n: nat, y: nat, line: string)
    requires RowsOk(r, n) && y < n && RowOk(r', y) && RowText(r', y) == line
    requires |r'.lines| == |r.lines| && |r'.len| == |r.len|
    requires r' == Rows(r.lines[y := r'.lines[y]], r.len[y := r'.len[y]])
    ensures RowsOk(r', n) && DocOf(r', n) == DocOf(r, n)[y := line]
  {
    forall i: nat | i < n ensures RowOk(r', i) && (i != y ==> RowText(r', i) == RowText(r, i)) {
      assert RowOk(r, i);
    }
    ghost var d, d' := DocOf(r, n)[y := line], DocOf(r', n);
    forall i: nat | i < n ensures d'[i] == d[i] {
      assert RowOk(r', i);
    }
    assert d' == d;
  }

  // ----- The editor -----

  datatype Snapshot = Snapshot(text: string, cx: nat, cy: nat)

  class Buffer {
    var rows: Rows
    var nlines: nat
    var cx: nat
    var cy: nat
    var dirty: bool
    var undo: seq<Snapshot>
    var undoHead: nat
    var undoCount: nat
    /** The snapshots that undo can still reach, oldest first. */
    ghost var stack: seq<Snapshot>

    ghost predicate DocValid()
      reads this
    {
      1 <= nlines && RowsOk(rows, nlines) && cy < nlines && cx <= |DocOf(rows, nlines)[cy]|
    }

    ghost function Doc(): Doc
      requires RowsOk(rows, nlines)
      reads this
    {
      DocOf(rows, nlines)
    }

    ghost predicate UndoValid()
      reads this
    {
      RingOk(undo, undoHead, stack) && undoCount == |stack|
    }

    ghost predicate Valid()
      reads this
    {
      DocValid() && UndoValid()
    }

    /** insert_char: one character, unless the line is full. */
    method TypeChar(c: char)
      requires Valid()
      modifies `rows, `cx, `dirty
      ensures Valid()
      ensures if |old(Doc())[cy]| < MAX_COLS then Doc() == InsertChar(old(Doc()), cy, old(cx), c) && cx == old(cx) + 1
              else Doc() == old(Doc()) && cx == old(cx)
      ensures dirty == (old(dirty) || |old(Doc())[cy]| < MAX_COLS)
    {
      assert RowOk(rows, cy);
      if rows.len[cy] >= MAX_COLS {
        return;
      }
      var len := rows.len[cy];
      var line := ShiftIn(rows.lines[cy], cx, len, c);
      ghost var was := rows;
      rows := Rows(rows.lines[cy := line], rows.len[cy := len + 1]);
      ghost var old_ := RowText(was, cy);
      assert RowText(rows, cy) == old_[..cx] + [c] + old_[cx..];
      Updated(was, rows, nlines, cy, old_[..cx] + [c] + old_[cx..]);
      cx := cx + 1;
      dirty := true;
    }

    /** insert_newline: the line is split at the cursor, unless the buffer is full. */
    method TypeNewline()
      requires Valid()
      modifies `rows, `nlines, `cx, `cy, `dirty
      ensures Valid()
      ensures if old(nlines) < MAX_LINES then Doc() == SplitLine(old(Doc()), old(cy), old(cx)) && cy == old(cy) + 1 &&
              cx == 0
              else Doc() == old(Doc()) && cx == old(cx) && cy == old(cy)
      ensures dirty == (old(dirty) || old(nlines) < MAX_LINES)
    {
      if nlines >= MAX_LINES {
        return;
      }
      ghost var d := Doc();
      assert RowOk(rows, cy);
      var r := OpenGap(rows, nlines, cy, d);
      assert HoldsLine(r, cy, d, 0);
      nlines := nlines + 1;
      var tail := r.len[cy] - cx;
      var line := CopyChars(r.lines[cy + 1], 0, r.lines[cy], cx, tail);
      line := line[tail := NUL];
      var head := r.lines[cy][cx := NUL];
      ghost var r0 := r;
      r := Rows(r.lines[cy + 1 := line][cy := head], r.len[cy + 1 := tail][cy := cx]);
      SplitRows(r0, r, nlines - 1, cy, cx, d);
      rows := r;
      cy := cy + 1;
      cx := 0;
      dirty := true;
    }

    /** do_backspace: the character before the cursor goes, or the line joins the one above. */
    method Backspace()
      requires Valid()
      modifies `rows, `nlines, `cx, `cy, `dirty
      ensures Valid()
      ensures if old(cx) > 0 then Doc() == DeleteChar(old(Doc()), old(cy), old(cx) - 1) && cy == old(cy) &&
              cx == old(cx) - 1
              else if old(cy) > 0 then Doc() == JoinLines(old(Doc()), old(cy) - 1) && cy == old(cy) - 1 &&
                cx == |old(Doc())[cy]|
              else Doc() == old(Doc()) && cx == old(cx) && cy == old(cy)
      ensures dirty == (old(dirty) || old(cx) > 0 || old(cy) > 0)
    {
      assert RowOk(rows, cy);
      if cx > 0 {
        EraseAt(cx - 1);
        cx := cx - 1;
        dirty := true;
      } else if cy > 0 {
        assert RowOk(rows, cy - 1);
        var prev := rows.len[cy - 1];
        Join(cy - 1);
        cy := cy - 1;
        cx := prev;
        dirty := true;
      }
    }

    /** do_delete: the character at the cursor goes, or the next line joins this one. */
    method Delete()
      requires Valid()
      modifies `rows, `nlines, `dirty
      ensures Valid()
      ensures if cx < |old(Doc())[cy]| then Doc() == DeleteChar(old(Doc()), cy, cx)
              else if cy + 1 < old(nlines) then Doc() == JoinLines(old(Doc()), cy)
              else Doc() == old(Doc())
      ensures dirty == (old(dirty) || cx < |old(Doc())[cy]| || cy + 1 < old(nlines))
    {
      assert RowOk(rows, cy);
      if cx < rows.len[cy] {
        EraseAt(cx);
        dirty := true;
      } else if cy + 1 < nlines {
        Join(cy);
        dirty := true;
      }
    }

    /** push_undo: a snapshot on top, the oldest of 16 falling off; a document too large is not saved. */
    method PushUndo()
      requires Valid()
      modifies `undo, `undoHead, `undoCount, `stack
      ensures Valid()
      ensures stack == if |Text(Doc())| <= UNDO_CAP then Latest(old(stack) + [Snapshot(Text(Doc()), cx, cy)])
              else old(stack)
    {
      var slot := undoHead;
      var text := Serialize(rows, nlines, UNDO_CAP);
      TextNotEmpty(Doc());
      if |text| == 0 {
        return;
      }
      SaveIn(slot, Snapshot(text, cx, cy));
    }

    method SaveIn(slot: nat, snap: Snapshot)
      requires UndoValid() && slot == undoHead
      modifies `undo, `undoHead, `undoCount, `stack
      ensures UndoValid() && stack == Latest(old(stack) + [snap])
    {
      Pushed(undo, undoHead, stack, snap);
      LatestCount(stack, snap);
      undo := undo[slot := snap];
      undoHead := (undoHead + 1) % UNDO_MAX;
      if undoCount < UNDO_MAX {
        undoCount := undoCount + 1;
      }
      stack := Latest(stack + [snap]);
    }

    /** do_undo: the top snapshot is taken off and read back. */
    method Undo()
      requires Valid()
      modifies `rows, `nlines, `cx, `cy, `dirty, `undoHead, `undoCount, `stack
      ensures Valid() && dirty == (old(dirty) || old(stack) != [])
      ensures old(stack) == [] ==> stack == [] && Doc() == old(Doc()) && cx == old(cx) && cy == old(cy)
      ensures old(stack) != [] ==> var top := old(stack)[|old(stack)| - 1];
                                   && stack == old(stack)[..|old(stack)| - 1] && Doc() == Parse(top.text)
                                   && cy == (if top.cy < nlines then top.cy else nlines - 1)
                                   && cx == (if top.cx < |Doc()[cy]| then top.cx else |Doc()[cy]|)
    {
      if undoCount == 0 {
        return;
      }
      Popped(undo, undoHead, stack);
      undoHead := (undoHead - 1 + UNDO_MAX) % UNDO_MAX;
      undoCount := undoCount - 1;
      stack := stack[..|stack| - 1];
      Restore(undo[undoHead]);
    }

    method Restore(snap: Snapshot)
      requires DocValid()
      modifies `rows, `nlines, `cx, `cy, `dirty
      ensures DocValid() && dirty && Doc() == Parse(snap.text)
      ensures cy == (if snap.cy < nlines then snap.cy else nlines - 1)
      ensures cx == (if snap.cx < |Doc()[cy]| then snap.cx else |Doc()[cy]|)
    {
      rows, nlines := ParseInto(rows, nlines, snap.text);
      cx, cy := snap.cx, snap.cy;
      if cy >= nlines {
        cy := nlines - 1;
      }
      assert RowOk(rows, cy) && Doc()[cy] == RowText(rows, cy);
      if cx > rows.len[cy] {
        cx := rows.len[cy];
      }
      dirty := true;
    }

    /** load_file: the file's text, or one empty line when there is no file. */
    constructor (found: bool, text: string)
      ensures Valid() && cx == cy == 0 && stack == [] && !dirty
      ensures Doc() == if found then Parse(text) else [""]
    {
      var blank := Rows(seq(MAX_LINES, _ => seq(MAX_COLS + 1, _ => NUL)), seq(MAX_LINES, _ => 0));
      assert Parse("") == [""];
      var r, n := ParseInto(blank, 0, if found then text else "");
      rows, nlines := r, n;
      cx, cy, dirty := 0, 0, false;
      undo := seq(UNDO_MAX, _ => Snapshot("", 0, 0));
      undoHead, undoCount, stack := 0, 0, [];
    }

    /** Any run of edits: while the buffer counts as saved, the document is the one it was. */
    method Edit(keys: seq<Edit>)
      requires Valid()
      modifies `rows, `nlines, `cx, `cy, `dirty
      ensures Valid() && (old(dirty) ==> dirty) && (!dirty ==> Doc() == old(Doc()))
    {
      for k := 0 to |keys|
        invariant Valid() && (old(dirty) ==> dirty) && (!dirty ==> Doc() == old(Doc()))
      {
        match keys[k] {
          case Type(c) => TypeChar(c);
          case Newline => TypeNewline();
          case Back => Backspace();
          case Del => Delete();
        }
      }
    }

    /** Whatever is edited after a snapshot, undo brings document and cursor back. */
    method EditAndUndo(keys: seq<Edit>)
      requires Valid() && CleanDoc(Doc()) && |Text(Doc())| <= UNDO_CAP
      modifies this
      ensures Valid() && Doc() == old(Doc()) && cx == old(cx) && cy == old(cy)
      ensures stack == if |old(stack)| == UNDO_MAX then old(stack)[1..] else old(stack)
    {
      PushUndo();
      Edit(keys);
      Undo();
      ParseSerialized(old(Doc()));
    }

    method EraseAt(x: nat)
      requires DocValid() && x < |Doc()[cy]|
      modifies `rows
      ensures RowsOk(rows, nlines) && Doc() == DeleteChar(old(Doc()), cy, x)
    {
      assert RowOk(rows, cy);
      var len := rows.len[cy];
      var line := ShiftOut(rows.lines[cy], x, len);
      ghost var was := rows;
      rows := Rows(rows.lines[cy := line], rows.len[cy := len - 1]);
      ghost var old_ := RowText(was, cy);
      assert RowText(rows, cy) == old_[..x] + old_[x + 1..];
      Updated(was, rows, nlines, cy, old_[..x] + old_[x + 1..]);
    }

    method Join(y: nat)
      requires DocValid() && y + 1 < nlines
      modifies `rows, `nlines
      ensures RowsOk(rows, nlines) && nlines == old(nlines) - 1 && Doc() == JoinLines(old(Doc()), y)
    {
      ghost var d := Doc();
      rows := AppendRow(rows, nlines, y);
      rows := CloseGap(rows, nlines, y + 1);
      nlines := nlines - 1;
      ghost var line := Clip(d[y] + d[y + 1]);
      assert d[y := line][..y + 1] == d[..y] + [line] && d[y := line][y + 2..] == d[y + 2..];
    }
  }

  datatype Edit = Type(c: char) | Newline | Back | Del

  lemma SplitRows(r: Rows, r': Rows, n: nat, y: nat, x: nat, d: Doc)
    requires Shape(r) && y < n == |d| < MAX_LINES && x <= |d[y]|
    requires forall k: nat {:trigger HoldsLine(r, k, d, 0)} :: k <= y ==> HoldsLine(r, k, d, 0)
    requires forall k: nat {:trigger HoldsLine(r, k, d, -1)} :: y + 1 < k <= n ==> HoldsLine(r, k, d, -1)
    requires |r'.lines| == |r'.len| == MAX_LINES
    requires r' == Rows(r.lines[y + 1 := r'.lines[y + 1]][y := r'.lines[y]],
             r.len[y + 1 := r'.len[y + 1]][y := r'.len[y]])
    requires RowIs(r', y, d[y][..x]) && RowIs(r', y + 1, d[y][x..])
    ensures RowsOk(r', n + 1) && DocOf(r', n + 1) == SplitLine(d, y, x)
  {
    var e := SplitLine(d, y, x);
    forall k: nat | k < n + 1 ensures HoldsLine(r', k, e, 0) {
      if k < y {
        assert HoldsLine(r, k, d, 0) && e[k] == d[k];
      } else if k > y + 1 {
        assert HoldsLine(r, k, d, -1) && e[k] == d[k - 1];
      }
    }
    DocIs(r', n + 1, e);
  }

  // ----- The undo ring -----

  /** The slot of the snapshot `k` below the top. */
  function UndoSlot(head: nat, k: nat): int {
    if head >= k + 1 then head - 1 - k else head - 1 - k + UNDO_MAX
  }

  ghost predicate SlotOk(undo: seq<Snapshot>, head: nat, stack: seq<Snapshot>, k: nat)
    requires |undo| == UNDO_MAX && head < UNDO_MAX && k < |stack| <= UNDO_MAX
  {
    undo[UndoSlot(head, k)] == stack[|stack| - 1 - k]
  }

  ghost predicate RingOk(undo: seq<Snapshot>, head: nat, stack: seq<Snapshot>) {
    && |undo| == UNDO_MAX && head < UNDO_MAX && |stack| <= UNDO_MAX
    && forall k: nat {:trigger SlotOk(undo, head, stack, k)} :: k < |stack| ==> SlotOk(undo, head, stack, k)
  }

  /** The last 16. */
  function Latest(s: seq<Snapshot>): seq<Snapshot> {
    if |s| <= UNDO_MAX then s else s[|s| - UNDO_MAX..]
  }

  lemma LatestCount(stack: seq<Snapshot>, snap: Snapshot)
    requires |stack| <= UNDO_MAX
    ensures |Latest(stack + [snap])| == if |stack| < UNDO_MAX then |stack| + 1 else UNDO_MAX
  {
  }

  lemma Pushed(undo: seq<Snapshot>, head: nat, stack: seq<Snapshot>, snap: Snapshot)
    requires RingOk(undo, head, stack)
    ensures RingOk(undo[head := snap], (head + 1) % UNDO_MAX, Latest(stack + [snap]))
  {
    var undo', head', stack' := undo[head := snap], (head + 1) % UNDO_MAX, Latest(stack + [snap]);
    forall k: nat | k < |stack'| ensures SlotOk(undo', head', stack', k) {
      LatestAt(stack, snap, k);
      SlotAfter(head, k);
      if k > 0 {
        assert SlotOk(undo, head, stack, k - 1);
      }
    }
  }

  /** Snapshot `k` from the top, once `snap` is on top. */
  lemma LatestAt(stack: seq<Snapshot>, snap: Snapshot, k: nat)
    requires |stack| <= UNDO_MAX && k < |Latest(stack + [snap])|
    ensures k <= |stack| && k < UNDO_MAX
    ensures var s := Latest(stack + [snap]); s[|s| - 1 - k] == if k == 0 then snap else stack[|stack| - k]
  {
  }

  lemma SlotAfter(head: nat, k: nat)
    requires head < UNDO_MAX && k < UNDO_MAX
    ensures UndoSlot((head + 1) % UNDO_MAX, k) == if k == 0 then head else UndoSlot(head, k - 1)
    ensures k > 0 ==> UndoSlot(head, k - 1) != head
  {
  }

  lemma Popped(undo: seq<Snapshot>, head: nat, stack: seq<Snapshot>)
    requires RingOk(undo, head, stack) && stack != []
    ensures var head' := (head - 1 + UNDO_MAX) % UNDO_MAX;
            RingOk(undo, head', stack[..|stack| - 1]) && undo[head'] == stack[|stack| - 1]
  {
    var head' := (head - 1 + UNDO_MAX) % UNDO_MAX;
    assert SlotOk(undo, head, stack, 0);
    var rest := stack[..|stack| - 1];
    forall k: nat | k < |rest| ensures SlotOk(undo, head', rest, k) {
      assert SlotOk(undo, head, stack, k + 1);
    }
  }

  lemma TextNotEmpty(d: Doc)
    requires d != []
    ensures |Text(d)| > 0
  {
  }

  // ----- Reading and writing -----

  lemma {:induction false} TextPrefix(d: Doc, k: nat)
    requires k < |d|
    ensures Text(d[..k + 1]) == Text(d[..k]) + d[k] + "\n"
  {
    assert d[..k + 1] == d[..k] + [d[k]];
    TextConcat(d[..k], [d[k]]);
    assert [d[k]][1..] == [];
    Assoc(Text(d[..k]), d[k], "\n");
  }

  /** serialize_into: the whole text, or nothing when it does not fit. */
  method Serialize(r: Rows, n: nat, cap: nat) returns (out: string)
    requires RowsOk(r, n)
    ensures out == if |Text(DocOf(r, n))| <= cap then Text(DocOf(r, n)) else ""
  {
    ghost var d := DocOf(r, n);
    var total := 0;
    for i := 0 to n
      invariant total == |Text(d[..i])|
    {
      assert RowOk(r, i) && d[i] == RowText(r, i);
      TextPrefix(d, i);
      total := total + r.len[i] + 1;
    }
    assert d[..n] == d;
    if total > cap {
      return "";
    }
    out := "";
    for i := 0 to n
      invariant out == Text(d[..i])
    {
      assert RowOk(r, i) && d[i] == RowText(r, i);
      TextPrefix(d, i);
      var row := CopyOut(r.lines[i], r.len[i]);
      out := out + row + "\n";
    }
  }

  method CopyOut(line: seq<char>, n: nat) returns (out: string)
    requires n <= |line|
    ensures out == line[..n]
  {
    out := "";
    for j := 0 to n
      invariant out == line[..j]
    {
      out := out + [line[j]];
    }
  }

  /** The state of buffer_from_text: `done` lines closed, `cur` the open line. */
  ghost predicate Parsing(r: Rows, n: nat, col: nat, done: Doc, cur: string) {
    && Shape(r) && |done| == n <= MAX_LINES && |cur| == col <= MAX_COLS
    && (forall k: nat {:trigger HoldsLine(r, k, done, 0)} :: k < n ==> HoldsLine(r, k, done, 0))
    && (if n < MAX_LINES then r.lines[n][..col] == cur else col == 0)
  }

  /** The open line is closed. */
  method CloseLine(r: Rows, n: nat, col: nat, ghost done: Doc, ghost cur: string) returns (r': Rows)
    requires Parsing(r, n, col, done, cur) && n < MAX_LINES
    ensures Parsing(r', n + 1, 0, done + [cur], "")
  {
    r' := Rows(r.lines[n := r.lines[n][col := NUL]], r.len[n := col]);
    ghost var done' := done + [cur];
    forall k: nat | k < n + 1 ensures HoldsLine(r', k, done', 0) {
      if k < n {
        assert HoldsLine(r, k, done, 0) && done'[k] == done[k];
      }
    }
  }

  /** buffer_from_text. */
  method ParseInto(r0: Rows, n0: nat, t: string) returns (r: Rows, n: nat)
    requires RowsOk(r0, n0)
    ensures RowsOk(r, n) && n >= 1 && DocOf(r, n) == Parse(t)
  {
    r, n := r0, 0;
    var col, j := 0, 0;
    ghost var done: Doc, cur: string := [], "";
    assert t[0..] == t;
    while j < |t| && n < MAX_LINES
      invariant j <= |t| && Parsing(r, n, col, done, cur) && ParseFrom(t[j..], done, cur) == Parse(t)
    {
      assert t[j..][1..] == t[j + 1..];
      if t[j] == '\n' {
        r := CloseLine(r, n, col, done, cur);
        done, cur := done + [cur], "";
        n, col := n + 1, 0;
      } else if t[j] != '\r' && col < MAX_COLS {
        r := PutChar(r, n, col, t[j], done, cur);
        cur := cur + [t[j]];
        col := col + 1;
      }
      j := j + 1;
    }
    if (col > 0 || n == 0) && n < MAX_LINES {
      r := CloseLine(r, n, col, done, cur);
      done := done + [cur];
      n := n + 1;
    }
    DocIs(r, n, done);
  }

  method PutChar(r: Rows, n: nat, col: nat, c: char, ghost done: Doc, ghost cur: string) returns (r': Rows)
    requires Parsing(r, n, col, done, cur) && n < MAX_LINES && col < MAX_COLS
    ensures Parsing(r', n, col + 1, done, cur + [c])
  {
    r' := Rows(r.lines[n := r.lines[n][col := c]], r.len);
    forall k: nat | k < n ensures HoldsLine(r', k, done, 0) {
      assert HoldsLine(r, k, done, 0);
    }
  }
}
