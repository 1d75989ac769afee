/** The armour around a keyring backup: a begin line, 64-column Base64 lines and an end line. */
module Pem {
  import opened Bytes
  import opened Base64

  const MAX_BACKUP_SIZE := 262144

  const LF: Byte := 10
  const CR: Byte := 13

  predicate NewlineFree(s: Bytes) {
    forall i :: 0 <= i < |s| ==> s[i] != LF && s[i] != CR
  }

  function PemBegin(): (s: Bytes)
    ensures |s| == 43 && NewlineFree(s)
  {
    [45, 45, 45, 45, 45, 66, 69, 71, 73, 78, 32, 67, 82, 89, 80, 84, 79, 67, 65, 77, 80, 85, 83, 32, 75,
     69, 89, 82, 73, 78, 71, 32, 66, 65, 67, 75, 85, 80, 45, 45, 45, 45, 45]
  }

  function PemEnd(): (s: Bytes)
    ensures |s| == 41 && NewlineFree(s)
  {
    [45, 45, 45, 45, 45, 69, 78, 68, 32, 67, 82, 89, 80, 84, 79, 67, 65, 77, 80, 85, 83, 32, 75, 69, 89,
     82, 73, 78, 71, 32, 66, 65, 67, 75, 85, 80, 45, 45, 45, 45, 45]
  }

  // bytes.splitlines

  /** Where the first line ends. */
  function LineEnd(s: Bytes): (n: nat)
    ensures n <= |s| && NewlineFree(s[..n]) && (n < |s| ==> s[n] == LF || s[n] == CR)
  {
    if s == [] || s[0] == LF || s[0] == CR then 0 else
      var m := LineEnd(s[1..]);
      assert s[..1 + m] == [s[0]] + s[1..][..m];
      1 + m
  }

  /** CR LF counts as one terminator. */
  function EolLength(s: Bytes): (n: nat)
    requires s != []
    ensures 1 <= n <= |s|
  {
    if |s| >= 2 && s[0] == CR && s[1] == LF then 2 else 1
  }

  /** What follows the first line and its terminator. */
  function AfterLine(s: Bytes): (rest: Bytes)
    requires LineEnd(s) < |s|
    ensures |rest| < |s|
  {
    var e := s[LineEnd(s)..];
    e[EolLength(e)..]
  }

  function SplitLines(s: Bytes): (lines: seq<Bytes>)
    decreases |s|
  {
    if s == [] then []
    else if LineEnd(s) == |s| then [s]
    else [s[..LineEnd(s)]] + SplitLines(AfterLine(s))
  }

  function Concat(pieces: seq<Bytes>): Bytes {
    if pieces == [] then [] else pieces[0] + Concat(pieces[1..])
  }

  /** The text without its line terminators. */
  function Unwrap(s: Bytes): (t: Bytes)
    ensures |t| <= |s|
  {
    if s == [] then [] else (if s[0] == LF || s[0] == CR then [] else [s[0]]) + Unwrap(s[1..])
  }

  lemma {:induction false} UnwrapConcat(a: Bytes, b: Bytes)
    ensures Unwrap(a + b) == Unwrap(a) + Unwrap(b)
  {
    if a == [] {
      assert a + b == b;
    } else {
      assert (a + b)[1..] == a[1..] + b;
      UnwrapConcat(a[1..], b);
    }
  }

  lemma {:induction false} UnwrapFree(a: Bytes)
    requires NewlineFree(a)
    ensures Unwrap(a) == a
  {
    if a != [] {
      UnwrapFree(a[1..]);
      assert a == [a[0]] + a[1..];
    }
  }

  lemma UnwrapEol(s: Bytes)
    requires s != [] && (s[0] == LF || s[0] == CR)
    ensures Unwrap(s) == Unwrap(s[EolLength(s)..])
  {
    if EolLength(s) == 2 { assert s[1..][1..] == s[2..]; }
  }

  /** The lines, put end to end, are the text without its terminators. */
  lemma {:induction false} LinesConcat(s: Bytes)
    ensures Concat(SplitLines(s)) == Unwrap(s)
    decreases |s|
  {
    if s != [] {
      var n := LineEnd(s);
      if n == |s| {
        assert s[..n] == s;
        UnwrapFree(s);
        ConcatOne(s);
      } else {
        LinesConcat(AfterLine(s));
        UnwrapLine(s);
        assert Concat([s[..n]] + SplitLines(AfterLine(s))) == s[..n] + Concat(SplitLines(AfterLine(s)));
      }
    }
  }

  lemma UnwrapLine(s: Bytes)
    requires LineEnd(s) < |s|
    ensures Unwrap(s) == s[..LineEnd(s)] + Unwrap(AfterLine(s))
  {
    hide *;
    var line, e := s[..LineEnd(s)], s[LineEnd(s)..];
    UnwrapFree(line);
    UnwrapEol(e);
    AfterLineIs(s);
    SplitAt(s, LineEnd(s));
    UnwrapConcat(line, e);
  }

  lemma AfterLineIs(s: Bytes)
    requires LineEnd(s) < |s|
    ensures var e := s[LineEnd(s)..]; AfterLine(s) == e[EolLength(e)..]
  {
  }

  lemma SplitAt<T>(s: seq<T>, n: nat)
    requires n <= |s|
    ensures s == s[..n] + s[n..]
  {
  }

  lemma {:induction false} ConcatParts(a: seq<Bytes>, b: seq<Bytes>)
    ensures Concat(a + b) == Concat(a) + Concat(b)
  {
    if a == [] {
      assert a + b == b;
    } else {
      assert (a + b)[1..] == a[1..] + b;
      ConcatParts(a[1..], b);
    }
  }

  // Wrapped text

  datatype Eol = Lf | Cr | CrLf
  {
    function Text(): (t: Bytes)
      ensures 1 <= |t| <= 2
    {
      match this
      case Lf => [LF]
      case Cr => [CR]
      case CrLf => [CR, LF]
    }
  }

  /** Lines with a terminator after each; the one after the last line is optional. */
  function Wrap(lines: seq<Bytes>, eols: seq<Eol>): Bytes
    requires |lines| - 1 <= |eols| <= |lines|
  {
    if lines == [] then []
    else if eols == [] then lines[0]
    else lines[0] + eols[0].Text() + Wrap(lines[1..], eols[1..])
  }

  lemma {:induction false} LineEndIs(line: Bytes, rest: Bytes)
    requires NewlineFree(line) && (rest != [] ==> rest[0] == LF || rest[0] == CR)
    ensures LineEnd(line + rest) == |line|
  {
    if line == [] {
      assert line + rest == rest;
    } else {
      assert (line + rest)[1..] == line[1..] + rest;
      LineEndIs(line[1..], rest);
    }
  }

  /** The first line of a text, and what is left of it. */
  lemma SplitFirst(line: Bytes, eol: Eol, rest: Bytes)
    requires NewlineFree(line) && (rest != [] ==> rest[0] != LF)
    ensures SplitLines(line + eol.Text() + rest) == [line] + SplitLines(rest)
  {
    var s, e := line + eol.Text() + rest, eol.Text() + rest;
    assert s == line + e;
    LineEndIs(line, e);
    assert s[|line|..] == e && s[..|line|] == line;
    assert EolLength(e) == |eol.Text()|;
    assert AfterLine(s) == e[EolLength(e)..] == rest;
  }

  /** Wrapping nonempty lines with any mixture of terminators, and splitting, gives the lines back. */
  lemma {:induction false} SplitWrap(lines: seq<Bytes>, eols: seq<Eol>)
    requires |lines| - 1 <= |eols| <= |lines|
    requires forall i :: 0 <= i < |lines| ==> lines[i] != [] && NewlineFree(lines[i])
    ensures SplitLines(Wrap(lines, eols)) == lines
  {
    if lines != [] {
      assert lines == [lines[0]] + lines[1..];
      if eols == [] {
        LineEndIs(lines[0], []);
        assert lines[0] + [] == lines[0] && lines == [lines[0]];
      } else {
        var rest := Wrap(lines[1..], eols[1..]);
        SplitWrap(lines[1..], eols[1..]);
        WrapHead(lines[1..], eols[1..]);
        SplitFirst(lines[0], eols[0], rest);
      }
    }
  }

  lemma WrapHead(lines: seq<Bytes>, eols: seq<Eol>)
    requires |lines| - 1 <= |eols| <= |lines|
    requires forall i :: 0 <= i < |lines| ==> lines[i] != [] && NewlineFree(lines[i])
    ensures Wrap(lines, eols) != [] ==> Wrap(lines, eols)[0] != LF
  {
    if lines != [] { assert Wrap(lines, eols)[0] == lines[0][0]; }
  }

  // _to_pem

  /** 64-column pieces of the encoded text. */
  function Chunks(s: Bytes): (c: seq<Bytes>)
    ensures |c| == (|s| + 63) / 64
    ensures forall i :: 0 <= i < |c| ==> 1 <= |c[i]| <= 64
  {
    if s == [] then [] else if |s| <= 64 then [s] else [s[..64]] + Chunks(s[64..])
  }

  lemma {:induction false} ChunksConcat(s: Bytes)
    ensures Concat(Chunks(s)) == s
    ensures NewlineFree(s) ==> forall i :: 0 <= i < |Chunks(s)| ==> NewlineFree(Chunks(s)[i])
  {
    if |s| > 64 {
      ChunksConcat(s[64..]);
      assert s == s[..64] + s[64..];
    } else if s != [] {
      assert Concat([s]) == s + Concat([]) == s;
    }
  }

  function Lfs(n: nat): (e: seq<Eol>)
    ensures |e| == n
  {
    if n == 0 then [] else [Lf] + Lfs(n - 1)
  }

  function PemText(container: Bytes): Bytes {
    var lines := [PemBegin()] + Chunks(Encode(container)) + [PemEnd()];
    Wrap(lines, Lfs(|lines|))
  }

  /** `_to_pem`: None where it raises. */
  function ToPem(container: Bytes): (pem: Option<Bytes>) {
    if |PemText(container)| > MAX_BACKUP_SIZE then None else Some(PemText(container))
  }

  /** The container inside the armour: the first half of `_from_pem`. */
  function Dearmour(backup: Bytes): (container: Option<Bytes>) {
    var lines := SplitLines(backup);
    if backup == [] || |backup| > MAX_BACKUP_SIZE then None
    else if |lines| < 3 || lines[0] != PemBegin() || lines[|lines| - 1] != PemEnd() then None
    else Decode(Concat(lines[1..|lines| - 1]))
  }

  /** The marker lines are lines of their own. */
  predicate Framed(backup: Bytes) {
    var lines := SplitLines(backup);
    |lines| >= 3 && lines[0] == PemBegin() && lines[|lines| - 1] == PemEnd()
  }

  lemma FramedBody(backup: Bytes)
    requires Framed(backup)
    ensures var lines, t := SplitLines(backup), Unwrap(backup);
      |t| >= 84 && Concat(lines[1..|lines| - 1]) == t[43..|t| - 41]
  {
    hide PemBegin, PemEnd, SplitLines, Unwrap, Concat;
    var lines, t := SplitLines(backup), Unwrap(backup);
    var body := lines[1..|lines| - 1];
    LinesConcat(backup);
    assert lines == [lines[0]] + (body + [lines[|lines| - 1]]);
    ConcatParts([lines[0]], body + [lines[|lines| - 1]]);
    ConcatParts(body, [lines[|lines| - 1]]);
    ConcatOne(PemBegin());
    ConcatOne(PemEnd());
    assert t == PemBegin() + (Concat(body) + PemEnd());
  }

  lemma ConcatOne(s: Bytes)
    ensures Concat([s]) == s
  {
    assert Concat([s]) == s + Concat([]) == s;
  }

  /** Line terminators inside the armour do not matter: what is read depends only on the text without them. */
  lemma RewrapSame(a: Bytes, b: Bytes)
    requires Framed(a) && Framed(b) && Unwrap(a) == Unwrap(b)
    requires |a| <= MAX_BACKUP_SIZE && |b| <= MAX_BACKUP_SIZE
    ensures Dearmour(a) == Dearmour(b)
  {
    hide Dearmour, Framed, Unwrap, Decode;
    DearmourFramed(a);
    DearmourFramed(b);
  }

  lemma DearmourFramed(backup: Bytes)
    requires Framed(backup) && |backup| <= MAX_BACKUP_SIZE
    ensures var t := Unwrap(backup); |t| >= 84 && Dearmour(backup) == Decode(t[43..|t| - 41])
  {
    hide PemBegin, PemEnd, SplitLines, Unwrap, Concat, Decode;
    FramedBody(backup);
    SomeText(backup);
  }

  lemma SomeText(backup: Bytes)
    requires SplitLines(backup) != []
    ensures backup != []
  {
  }

  /** Any cutting of a Base64 text into nonempty lines, with any mixture of terminators, is read as that text. */
  lemma AnyWrapping(pieces: seq<Bytes>, eols: seq<Eol>)
    requires pieces != [] && |pieces| + 1 <= |eols| <= |pieces| + 2
    requires forall i :: 0 <= i < |pieces| ==> pieces[i] != [] && NewlineFree(pieces[i])
    ensures var backup := Wrap([PemBegin()] + pieces + [PemEnd()], eols);
      Dearmour(backup) == if |backup| > 262144 then None else Decode(Concat(pieces))
  {
    hide PemBegin, PemEnd;
    var lines := [PemBegin()] + pieces + [PemEnd()];
    SplitWrap(lines, eols);
    assert lines[1..|lines| - 1] == pieces;
  }

  lemma EncodedFree(b: Bytes)
    ensures NewlineFree(Encode(b))
  {
    var s, p := ToSextets(b), Padding(PadCount(|b|));
    forall i | 0 <= i < |s| + |p| ensures Encode(b)[i] != LF && Encode(b)[i] != CR {
      if i < |s| { assert Encode(b)[i] == Symbol(s[i]); } else { assert Encode(b)[i] == p[i - |s|]; }
    }
  }

  /** `_from_pem` undoes `_to_pem`, for every container that fits. */
  lemma DearmourInverts(container: Bytes)
    requires container != []
    ensures ToPem(container).Some? ==> Dearmour(ToPem(container).value) == Some(container)
  {
    hide PemBegin, PemEnd, Encode, Decode, Chunks, Wrap, Dearmour;
    var pieces := Chunks(Encode(container));
    EncodedFree(container);
    ChunksConcat(Encode(container));
    DecodeEncode(container);
    AnyWrapping(pieces, Lfs(|pieces| + 2));
  }

  lemma {:induction false} WrapLength(lines: seq<Bytes>)
    ensures |Wrap(lines, Lfs(|lines|))| == |Concat(lines)| + |lines|
  {
    if lines != [] {
      WrapLength(lines[1..]);
      assert Lfs(|lines|)[1..] == Lfs(|lines| - 1);
    }
  }

  /** The exact size of the armour. */
  lemma PemSize(container: Bytes)
    ensures var m := (|container| + 2) / 3 * 4; |PemText(container)| == m + (m + 63) / 64 + 86
  {
    hide PemBegin, PemEnd, Encode, Chunks, Wrap;
    var pieces := Chunks(Encode(container));
    var lines := [PemBegin()] + pieces + [PemEnd()];
    ChunksConcat(Encode(container));
    ConcatParts([PemBegin()] + pieces, [PemEnd()]);
    ConcatParts([PemBegin()], pieces);
    ConcatOne(PemBegin());
    ConcatOne(PemEnd());
    WrapLength(lines);
  }
}
