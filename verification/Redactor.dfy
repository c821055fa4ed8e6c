/** The output guard: bearer tokens in an assistant reply are replaced. */
module Redactor {

  type Text = string

  const UPPER: Text := "Bearer "
  const LOWER: Text := "bearer "
  const REDACTED: Text := "[redacted]"
  const PREFIX_LENGTH := 7
  const TOKEN_CAP := 128

  predicate IsSpace(c: char) {
    c == ' ' || c == '\t' || c == '\n' || c == '\r' || c == '\U{0B}' || c == '\U{0C}'
  }

  /** `p` stands at position `i`. */
  predicate At(text: Text, i: nat, p: Text) {
    i + |p| <= |text| && text[i..i + |p|] == p
  }

  /** A bearer prefix, in either spelling, stands at position `i`. */
  predicate Marked(text: Text, i: nat) {
    At(text, i, UPPER) || At(text, i, LOWER)
  }

  /** strings.Index: the first position of `p`, or -1. */
  function Index(text: Text, p: Text): (i: int)
    requires p != ""
    ensures -1 <= i < |text|
    ensures i >= 0 ==> At(text, i, p) && forall j :: 0 <= j < i ==> !At(text, j, p)
    ensures i < 0 ==> forall j :: 0 <= j ==> !At(text, j, p)
  {
    IndexFrom(text, p, 0)
  }

  function IndexFrom(text: Text, p: Text, from: nat): (i: int)
    requires p != "" && from <= |text|
    requires forall j :: 0 <= j < from ==> !At(text, j, p)
    ensures -1 <= i < |text|
    ensures i >= 0 ==> At(text, i, p) && forall j :: 0 <= j < i ==> !At(text, j, p)
    ensures i < 0 ==> forall j :: 0 <= j ==> !At(text, j, p)
    decreases |text| - from
  {
    if from == |text| then -1
    else if At(text, from, p) then from
    else IndexFrom(text, p, from + 1)
  }

  /** Where the first prefix of either spelling stands, or -1. */
  function FirstMark(text: Text): (i: int)
    ensures -1 <= i < |text|
    ensures i >= 0 ==> Marked(text, i) && forall j :: 0 <= j < i ==> !Marked(text, j)
    ensures i < 0 ==> forall j :: 0 <= j ==> !Marked(text, j)
  {
    var u, l := Index(text, UPPER), Index(text, LOWER);
    if u < 0 then l else if l < 0 || u < l then u else l
  }

  /** How far the token at the start of `rest` goes. */
  function TokenLength(rest: Text, end: nat := 0): nat
    requires end <= |rest| && end <= TOKEN_CAP
    ensures end <= TokenLength(rest, end) <= |rest|
    decreases |rest| - end
  {
    if end < |rest| && end < TOKEN_CAP && !IsSpace(rest[end]) then TokenLength(rest, end + 1) else end
  }

  // ----- what redaction means -----

  /** A stretch of text copied up to and including a prefix, and the token after it. */
  datatype Piece = Piece(copied: Text, token: Text)

  /** The text up to and including its first prefix. */
  function Copied(text: Text): Text
    requires FirstMark(text) >= 0
  {
    text[..FirstMark(text) + PREFIX_LENGTH]
  }

  function Token(text: Text): Text
    requires FirstMark(text) >= 0
  {
    var after := text[FirstMark(text) + PREFIX_LENGTH..];
    after[..TokenLength(after)]
  }

  /** Behind the first token. */
  function Rest(text: Text): (rest: Text)
    requires FirstMark(text) >= 0
    ensures |rest| < |text|
  {
    var after := text[FirstMark(text) + PREFIX_LENGTH..];
    after[TokenLength(after)..]
  }

  function Pieces(text: Text): seq<Piece>
    decreases |text|
  {
    if FirstMark(text) < 0 then [] else [Piece(Copied(text), Token(text))] + Pieces(Rest(text))
  }

  /** What follows the last token. */
  function Tail(text: Text): Text
    decreases |text|
  {
    if FirstMark(text) < 0 then text else Tail(Rest(text))
  }

  function Original(pieces: seq<Piece>, tail: Text): Text {
    if pieces == [] then tail else pieces[0].copied + pieces[0].token + Original(pieces[1..], tail)
  }

  function Covered(pieces: seq<Piece>, tail: Text): Text {
    if pieces == [] then tail else pieces[0].copied + REDACTED + Covered(pieces[1..], tail)
  }

  function Redacted(text: Text): Text { Covered(Pieces(text), Tail(text)) }

  lemma CutHere(text: Text)
    requires FirstMark(text) >= 0
    ensures text == Copied(text) + Token(text) + Rest(text)
    ensures Pieces(text) == [Piece(Copied(text), Token(text))] + Pieces(Rest(text))
    ensures Pieces(text)[1..] == Pieces(Rest(text)) && Tail(text) == Tail(Rest(text))
  {
    CutParts(text);
    FirstPiece(text);
  }

  lemma CutParts(text: Text)
    requires FirstMark(text) >= 0
    ensures text == Copied(text) + Token(text) + Rest(text)
  {
  }

  lemma FirstPiece(text: Text)
    requires FirstMark(text) >= 0
    ensures Pieces(text) == [Piece(Copied(text), Token(text))] + Pieces(Rest(text))
    ensures Pieces(text)[1..] == Pieces(Rest(text)) && Tail(text) == Tail(Rest(text))
  {
    assert Pieces(text)[1..] == Pieces(Rest(text));
  }

  /** The pieces are the text, cut but not changed: only the tokens are lost. */
  lemma {:induction false} PiecesAreTheText(text: Text)
    ensures Original(Pieces(text), Tail(text)) == text
    decreases |text|
  {
    if FirstMark(text) >= 0 {
      CutHere(text);
      PiecesAreTheText(Rest(text));
    }
  }

  /** Nothing but a token is lost: it holds no white space, is at most 128 bytes
      long, and stops only at white space, at 128 bytes or at the end. */
  ghost predicate IsWholeToken(token: Text, after: Text) {
    && |token| <= TOKEN_CAP
    && (forall j :: 0 <= j < |token| ==> !IsSpace(token[j]))
    && (|token| == TOKEN_CAP || after == "" || IsSpace(after[0]))
  }

  lemma {:induction false} TokenIsWhole(rest: Text, end: nat)
    requires end <= |rest| && end <= TOKEN_CAP && forall j :: 0 <= j < end ==> !IsSpace(rest[j])
    ensures var n := TokenLength(rest, end); IsWholeToken(rest[..n], rest[n..])
    decreases |rest| - end
  {
    if end < |rest| && end < TOKEN_CAP && !IsSpace(rest[end]) {
      TokenIsWhole(rest, end + 1);
    }
  }

  predicate Unmarked(text: Text) { FirstMark(text) < 0 }

  /** `copied` ends with its only prefix. */
  ghost predicate EndsAtItsMark(copied: Text) {
    && |copied| >= PREFIX_LENGTH
    && Marked(copied, |copied| - PREFIX_LENGTH)
    && forall j :: 0 <= j < |copied| - PREFIX_LENGTH ==> !Marked(copied, j)
  }

  /** Each piece runs to the next prefix and loses the whole token behind it;
      the tail holds no prefix. */
  ghost predicate WellCut(pieces: seq<Piece>, tail: Text) {
    if pieces == [] then Unmarked(tail)
    else
      && EndsAtItsMark(pieces[0].copied)
      && IsWholeToken(pieces[0].token, Original(pieces[1..], tail))
      && WellCut(pieces[1..], tail)
  }

  lemma FirstCutEndsAtMark(text: Text)
    requires FirstMark(text) >= 0
    ensures EndsAtItsMark(Copied(text))
  {
    var copied := Copied(text);
    forall j | 0 <= j <= FirstMark(text) ensures Marked(copied, j) == Marked(text, j) {
      assert copied[j..j + PREFIX_LENGTH] == text[j..j + PREFIX_LENGTH];
    }
  }

  lemma {:induction false} PiecesWellCut(text: Text)
    ensures WellCut(Pieces(text), Tail(text))
    decreases |text|
  {
    if FirstMark(text) >= 0 {
      CutHere(text);
      FirstCutEndsAtMark(text);
      TokenIsWhole(text[FirstMark(text) + PREFIX_LENGTH..], 0);
      PiecesAreTheText(Rest(text));
      PiecesWellCut(Rest(text));
    }
  }

  // ----- no token is left behind a prefix -----

  /** Every prefix standing in the text is followed by the placeholder. */
  ghost predicate Guarded(text: Text) {
    forall i: nat :: Marked(text, i) ==> At(text, i + PREFIX_LENGTH, REDACTED)
  }

  lemma NotAt(text: Text, i: nat, p: Text, j: nat)
    requires j < |p| && i + j < |text| && text[i + j] != p[j]
    ensures !At(text, i, p)
  {
    if i + |p| <= |text| {
      assert text[i..i + |p|][j] == text[i + j];
    }
  }

  /** No prefix starts inside the placeholder or reaches into it. */
  lemma NoMarkAcross(copied: Text, rest: Text, i: nat)
    requires |copied| - PREFIX_LENGTH < i < |copied| + |REDACTED|
    ensures !Marked(copied + REDACTED + rest, i)
  {
    var out := copied + REDACTED + rest;
    var j := if i < |copied| then |copied| - i else 0;
    assert out[i + j] == REDACTED[i + j - |copied|];
    NotAt(out, i, UPPER, j);
    NotAt(out, i, LOWER, j);
  }

  lemma GuardOne(copied: Text, rest: Text)
    requires EndsAtItsMark(copied) && Guarded(rest)
    ensures Guarded(copied + REDACTED + rest)
  {
    var out := copied + REDACTED + rest;
    var shift := |copied| + |REDACTED|;
    forall i: nat | Marked(out, i)
      ensures At(out, i + PREFIX_LENGTH, REDACTED)
    {
      if i + PREFIX_LENGTH <= |copied| {
        assert out[i..i + PREFIX_LENGTH] == copied[i..i + PREFIX_LENGTH];
        assert Marked(copied, i);
        assert out[|copied|..shift] == REDACTED;
      } else if i < shift {
        NoMarkAcross(copied, rest, i);
      } else {
        assert out[i..i + PREFIX_LENGTH] == rest[i - shift..i - shift + PREFIX_LENGTH];
        assert Marked(rest, i - shift);
        assert out[i + PREFIX_LENGTH..i + PREFIX_LENGTH + |REDACTED|]
            == rest[i - shift + PREFIX_LENGTH..i - shift + PREFIX_LENGTH + |REDACTED|];
      }
    }
  }

  lemma {:induction false} CoveredIsGuarded(pieces: seq<Piece>, tail: Text)
    requires WellCut(pieces, tail)
    ensures Guarded(Covered(pieces, tail))
  {
    if pieces != [] {
      CoveredIsGuarded(pieces[1..], tail);
      GuardOne(pieces[0].copied, Covered(pieces[1..], tail));
    }
  }

  /** In the output every bearer prefix is immediately followed by `[redacted]`. */
  lemma OutputIsGuarded(text: Text)
    ensures Guarded(Redacted(text))
  {
    PiecesWellCut(text);
    CoveredIsGuarded(Pieces(text), Tail(text));
  }

  /** One round: copy to the first prefix, put the placeholder, go on behind the token. */
  lemma RedactedStep(b: Text, text: Text)
    requires FirstMark(text) >= 0
    ensures b + Redacted(text) == b + Copied(text) + REDACTED + Redacted(Rest(text))
  {
    CutHere(text);
    Regroup(b, Copied(text), REDACTED, Redacted(Rest(text)));
  }

  lemma Regroup(a: Text, b: Text, c: Text, d: Text)
    ensures a + (b + c + d) == a + b + c + d
  {
  }

  // ----- the loop -----

  /** The first of the two spellings, found by searching for each in turn. */
  method FindPrefix(rest: Text) returns (idx: int, prefix: Text)
    ensures idx == FirstMark(rest) && (idx >= 0 ==> |prefix| == PREFIX_LENGTH)
  {
    idx, prefix := -1, "";
    var spellings := [UPPER, LOWER];
    for s := 0 to 2
      invariant s == 0 ==> idx == -1
      invariant s == 1 ==> idx == Index(rest, UPPER) && (idx >= 0 ==> prefix == UPPER)
      invariant s == 2 ==> idx == FirstMark(rest) && (idx >= 0 ==> |prefix| == PREFIX_LENGTH)
    {
      var i := Index(rest, spellings[s]);
      if i >= 0 && (idx < 0 || i < idx) {
        idx, prefix := i, spellings[s];
      }
    }
  }

  method SkipToken(rest: Text) returns (end: nat)
    ensures end == TokenLength(rest) <= |rest|
  {
    end := 0;
    while end < |rest| && end < TOKEN_CAP && !IsSpace(rest[end])
      invariant end <= |rest| && end <= TOKEN_CAP
      invariant TokenLength(rest) == TokenLength(rest, end)
    {
      end := end + 1;
    }
  }

  method RedactOutput(text: Text) returns (b: Text)
    ensures b == Covered(Pieces(text), Tail(text))
    ensures Original(Pieces(text), Tail(text)) == text && WellCut(Pieces(text), Tail(text))
    ensures Guarded(b)
  {
    b := "";
    var rest := text;
    ghost var goal := Redacted(text);
    while |rest| > 0
      invariant b + Redacted(rest) == goal
      decreases |rest|
    {
      var idx, prefix := FindPrefix(rest);
      if idx < 0 {
        b, rest := b + rest, "";
        break;
      }
      RedactedStep(b, rest);
      b := b + rest[..idx + |prefix|];
      var after := rest[idx + |prefix|..];
      var end := SkipToken(after);
      b := b + REDACTED;
      rest := after[end..];
    }
    assert Redacted("") == "";
    PiecesAreTheText(text);
    PiecesWellCut(text);
    OutputIsGuarded(text);
  }
}
