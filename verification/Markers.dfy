/** internal/controller/claudetask_controller.go: the markers in Claude's result text. */
module Markers {
  import opened Text

  const MARKER_COMPLETE := ":::TASK_COMPLETE:::"
  const MARKER_FAILED := ":::TASK_FAILED:::"
  const MARKER_CLARIFICATION := ":::CLARIFICATION:::"
  const MARKER_PR_URL := ":::PR_URL:::"

  /** The terminators of a question, in the order in which the code looks for them. */
  const TERMINATORS: seq<string> := [MARKER_COMPLETE, MARKER_FAILED, MARKER_PR_URL]

  lemma TerminatorList()
    ensures |TERMINATORS| == 3 && TERMINATORS[0] == MARKER_COMPLETE
    ensures TERMINATORS[1] == MARKER_FAILED && TERMINATORS[2] == MARKER_PR_URL
    ensures forall m :: m in TERMINATORS <==> m == MARKER_COMPLETE || m == MARKER_FAILED || m == MARKER_PR_URL
    ensures MARKER_COMPLETE != "" && MARKER_FAILED != "" && MARKER_PR_URL != ""
  {
    assert MARKER_COMPLETE[0] == MARKER_FAILED[0] == MARKER_PR_URL[0] == ':';
    hide MARKER_COMPLETE, MARKER_FAILED, MARKER_PR_URL;
  }

  lemma MarkerTexts()
    ensures MARKER_COMPLETE == ":::TASK_COMPLETE:::" && MARKER_FAILED == ":::TASK_FAILED:::"
    ensures MARKER_CLARIFICATION == ":::CLARIFICATION:::" && MARKER_PR_URL == ":::PR_URL:::"
  {
  }

  /** Drop everything from the first `m` on. */
  function Cut(s: string, m: string): string {
    var i := Index(s, m);
    if i == -1 then s else s[..i]
  }

  /** What follows the first clarification marker, trimmed. */
  function Remaining(output: string): string
    requires Contains(output, MARKER_CLARIFICATION)
  {
    TrimSpace(output[Index(output, MARKER_CLARIFICATION) + |MARKER_CLARIFICATION|..])
  }

  /** The question in `output`, empty if there is none. */
  function Clarification(output: string): string {
    if !Contains(output, MARKER_CLARIFICATION) then ""
    else TrimSpace(Cut(Cut(Cut(Remaining(output), MARKER_COMPLETE), MARKER_FAILED), MARKER_PR_URL))
  }

  /** parseClarification. */
  method ParseClarification(output: string) returns (question: string)
    ensures question == Clarification(output)
  {
    TerminatorList();
    hide Index, TrimSpace, TERMINATORS, MARKER_COMPLETE, MARKER_FAILED, MARKER_CLARIFICATION, MARKER_PR_URL;
    var idx := Index(output, MARKER_CLARIFICATION);
    if idx == -1 {
      return "";
    }
    var remaining := TrimSpace(output[idx + |MARKER_CLARIFICATION|..]);
    ghost var r := remaining;
    var k := 0;
    while k < |TERMINATORS|
      invariant 0 <= k <= 3
      invariant remaining == if k == 0 then r
                             else if k == 1 then Cut(r, MARKER_COMPLETE)
                             else if k == 2 then Cut(Cut(r, MARKER_COMPLETE), MARKER_FAILED)
                             else Cut(Cut(Cut(r, MARKER_COMPLETE), MARKER_FAILED), MARKER_PR_URL)
    {
      var i := Index(remaining, TERMINATORS[k]);
      if i != -1 {
        remaining := remaining[..i];
      }
      k := k + 1;
    }
    return TrimSpace(remaining);
  }

  lemma PieceOfPiece(s: string, a: nat, b: nat, c: nat, d: nat)
    requires a <= b <= |s| && c <= d <= b - a
    ensures s[a..b][c..d] == s[a + c..a + d]
  {
    assert forall i :: 0 <= i < d - c ==> s[a..b][c..d][i] == s[a..b][c + i] == s[a + c + i];
  }

  lemma OccursInPiece(s: string, a: nat, b: nat, m: string)
    requires a <= b <= |s|
    ensures Occurs(s[a..b], m) ==> Occurs(s, m)
  {
    if Occurs(s[a..b], m) {
      var k :| At(s[a..b], m, k);
      PieceOfPiece(s, a, b, k, k + |m|);
      assert At(s, m, a + k);
    }
  }

  /** After the cuts no terminator is left. */
  lemma NoTerminatorLeft(r: string)
    ensures forall m :: m in TERMINATORS ==> !Occurs(r[..FinalCut(r)], m)
  {
    var c0 := CutAt(r, MARKER_COMPLETE, |r|);
    var c1 := CutAt(r, MARKER_FAILED, c0);
    var c2 := CutAt(r, MARKER_PR_URL, c1);
    IndexInPrefix(r, MARKER_COMPLETE, c2);
    IndexInPrefix(r, MARKER_FAILED, c2);
    IndexInPrefix(r, MARKER_PR_URL, c2);
  }

  /** The question is a piece of the trimmed remainder without terminators. */
  lemma QuestionPiece(r: string) returns (d: nat, e: nat)
    ensures d <= e <= |r| && TrimSpace(r[..FinalCut(r)]) == r[d..e]
    ensures forall m :: m in TERMINATORS ==> !Occurs(r[d..e], m)
  {
    hide FinalCut, TrimSpace, TERMINATORS;
    var c := FinalCut(r);
    NoTerminatorLeft(r);
    d, e := TrimPiece(r[..c]);
    assert r[..c] == r[0..c];
    PieceOfPiece(r, 0, c, d, e);
    forall m | m in TERMINATORS ensures !Occurs(r[d..e], m) {
      OccursInPiece(r[..c], d, e, m);
    }
  }

  /** For every output: the question is a trimmed, contiguous piece of what follows the first
      clarification marker, and it contains no terminator. */
  lemma QuestionShape(output: string)
    ensures var q := Clarification(output);
            && Trimmed(q)
            && (forall m :: m in TERMINATORS ==> !Occurs(q, m))
            && (if Contains(output, MARKER_CLARIFICATION)
                then exists a: nat, b: nat ::
                       a <= b <= |output| && q == output[a..b]
                       && a >= Index(output, MARKER_CLARIFICATION) + |MARKER_CLARIFICATION|
                else q == "")
  {
    TerminatorList();
    hide FinalCut, Cut, Index, TrimSpace, TERMINATORS, MARKER_COMPLETE, MARKER_FAILED, MARKER_CLARIFICATION,
         MARKER_PR_URL;
    if Contains(output, MARKER_CLARIFICATION) {
      var start := Index(output, MARKER_CLARIFICATION) + |MARKER_CLARIFICATION|;
      var r := Remaining(output);
      CutsAtFinalCut(r);
      var a, b := TrimPiece(output[start..]);
      var d, e := QuestionPiece(r);
      assert output[start..] == output[start..|output|];
      PieceOfPiece(output, start, |output|, a, b);
      PieceOfPiece(output, start + a, start + b, d, e);
      assert Clarification(output) == output[start + a + d..start + a + e];
    } else {
      forall m | m in TERMINATORS ensures !Occurs("", m) {
        assert |m| > 0;
      }
    }
  }

  // ---------- which terminator ends the question ----------

  /** Where the code cuts `s` for marker `m`, given that it has already cut at `c`. */
  function CutAt(s: string, m: string, c: nat): (d: nat)
    requires c <= |s|
    ensures d <= c
  {
    var i := Index(s, m);
    if i != -1 && i + |m| <= c then i else c
  }

  lemma CutIsCutAt(s: string, m: string, c: nat)
    requires c <= |s|
    ensures Cut(s[..c], m) == s[..CutAt(s, m, c)]
  {
    IndexInPrefix(s, m, c);
  }

  function FinalCut(s: string): (c: nat)
    ensures c <= |s|
  {
    CutAt(s, MARKER_PR_URL, CutAt(s, MARKER_FAILED, CutAt(s, MARKER_COMPLETE, |s|)))
  }

  lemma CutsAtFinalCut(s: string)
    ensures Cut(Cut(Cut(s, MARKER_COMPLETE), MARKER_FAILED), MARKER_PR_URL) == s[..FinalCut(s)]
  {
    var c := CutAt(s, MARKER_COMPLETE, |s|);
    assert s[..|s|] == s;
    CutIsCutAt(s, MARKER_COMPLETE, |s|);
    CutIsCutAt(s, MARKER_FAILED, c);
    CutIsCutAt(s, MARKER_PR_URL, CutAt(s, MARKER_FAILED, c));
  }

  function MinIndex(i: int, j: int): int {
    if i == -1 then j else if j == -1 || i < j then i else j
  }

  /** The position of the first terminator, or the end of the text. */
  function Earliest(s: string): (e: nat)
    ensures e <= |s|
  {
    var e := MinIndex(Index(s, MARKER_COMPLETE), MinIndex(Index(s, MARKER_FAILED), Index(s, MARKER_PR_URL)));
    if e == -1 then |s| else e
  }

  /** The first `m'` starts inside the first `m`. */
  predicate Overlaps(s: string, m: string, m': string) {
    var i, j := Index(s, m), Index(s, m');
    i != -1 && i < j < i + |m|
  }

  /** The first terminator shares colons with one that the code looks for before it. */
  predicate Clobbered(s: string) {
    || (Earliest(s) == Index(s, MARKER_FAILED) && Overlaps(s, MARKER_FAILED, MARKER_COMPLETE))
    || (Earliest(s) == Index(s, MARKER_PR_URL)
        && (|| Overlaps(s, MARKER_PR_URL, MARKER_COMPLETE)
            || (Overlaps(s, MARKER_PR_URL, MARKER_FAILED) && !Overlaps(s, MARKER_FAILED, MARKER_COMPLETE))))
  }

  /** No two terminators occur at one position. */
  lemma TerminatorsDiffer(s: string, i: int)
    ensures !(At(s, MARKER_COMPLETE, i) && At(s, MARKER_FAILED, i))
    ensures !(At(s, MARKER_PR_URL, i) && At(s, MARKER_FAILED, i))
    ensures !(At(s, MARKER_PR_URL, i) && At(s, MARKER_COMPLETE, i))
  {
    assert At(s, MARKER_COMPLETE, i) ==> s[i + 8] == MARKER_COMPLETE[8] == 'C' && s[i + 3] == MARKER_COMPLETE[3] == 'T';
    assert At(s, MARKER_FAILED, i) ==> s[i + 8] == MARKER_FAILED[8] == 'F' && s[i + 3] == MARKER_FAILED[3] == 'T';
    assert At(s, MARKER_PR_URL, i) ==> s[i + 3] == MARKER_PR_URL[3] == 'P';
  }

  /** The code cuts at the first terminator unless it is clobbered; then it cuts inside it. */
  lemma FinalCutIs(s: string)
    ensures !Clobbered(s) ==> FinalCut(s) == Earliest(s)
    ensures Clobbered(s) ==> exists m :: m in TERMINATORS && At(s, m, Earliest(s))
                               && Earliest(s) < FinalCut(s) <= Earliest(s) + |m|
  {
    hide Index, TERMINATORS, MARKER_COMPLETE, MARKER_FAILED, MARKER_PR_URL;
    TerminatorList();
    TerminatorLengths();
    var i, j, k := Index(s, MARKER_COMPLETE), Index(s, MARKER_FAILED), Index(s, MARKER_PR_URL);
    TerminatorsDiffer(s, i);
    TerminatorsDiffer(s, j);
    TerminatorsDiffer(s, k);
  }

  lemma TerminatorLengths()
    ensures |MARKER_COMPLETE| == 19 && |MARKER_FAILED| == 17 && |MARKER_PR_URL| == 12
  {
  }

  predicate MarkerChar(c: char) {
    c == ':' || c == '_' || 'A' <= c <= 'Z'
  }

  lemma TerminatorChars(s: string, m: string, i: int, k: int)
    requires m in TERMINATORS && At(s, m, i) && i <= k < i + |m|
    ensures MarkerChar(s[k]) && !IsSpace(s[k])
  {
    assert s[i..i + |m|][k - i] == m[k - i];
    assert forall n :: 0 <= n < |MARKER_COMPLETE| ==> MarkerChar(MARKER_COMPLETE[n]);
    assert forall n :: 0 <= n < |MARKER_FAILED| ==> MarkerChar(MARKER_FAILED[n]);
    assert forall n :: 0 <= n < |MARKER_PR_URL| ==> MarkerChar(MARKER_PR_URL[n]);
  }

  lemma TrimStartsTrimmed(s: string)
    requires s != "" && !IsSpace(s[0]) && !IsSpace(s[|s| - 1])
    ensures TrimSpace(s) == s
  {
    TrimUnique("", s, "");
    assert "" + s + "" == s;
  }

  /** Cutting later, after a visible character, gives a longer text. */
  lemma CutsDiffer(r: string, e: nat, c: nat)
    requires Trimmed(r) && e < c <= |r| && !IsSpace(r[c - 1])
    ensures TrimSpace(r[..c]) != TrimSpace(r[..e])
  {
    assert r[..c][0] == r[0] && r[..c][c - 1] == r[c - 1];
    TrimStartsTrimmed(r[..c]);
    assert |TrimSpace(r[..e])| <= e;
  }

  /** The code comment promises everything up to the next marker. That is what it returns
      exactly when the first terminator is not clobbered. */
  lemma EndsAtNextMarker(output: string)
    requires Contains(output, MARKER_CLARIFICATION)
    ensures var r := Remaining(output);
            Clarification(output) == TrimSpace(r[..Earliest(r)]) <==> !Clobbered(r)
  {
    hide FinalCut, Cut, Earliest, Clobbered, Index, TrimSpace, TERMINATORS, MARKER_COMPLETE, MARKER_FAILED,
         MARKER_CLARIFICATION, MARKER_PR_URL;
    var r := Remaining(output);
    var e, c := Earliest(r), FinalCut(r);
    CutsAtFinalCut(r);
    FinalCutIs(r);
    if Clobbered(r) {
      var m :| m in TERMINATORS && At(r, m, e) && e < c <= e + |m|;
      TerminatorChars(r, m, e, c - 1);
      CutsDiffer(r, e, c);
    }
  }

  /** An input on which the promise fails: two terminators that share colons. */
  lemma ClobberedInput()
    ensures Clarification(MARKER_CLARIFICATION + ":::TASK_FAILED:::TASK_COMPLETE:::") == ":::TASK_FAILED"
  {
    hide Cut, FinalCut, Index, TrimSpace, MARKER_CLARIFICATION, MARKER_COMPLETE, MARKER_FAILED, MARKER_PR_URL;
    var r := ":::TASK_FAILED:::TASK_COMPLETE:::";
    var output := MARKER_CLARIFICATION + r;
    assert output[0..|MARKER_CLARIFICATION|] == MARKER_CLARIFICATION;
    IndexIs(output, MARKER_CLARIFICATION, 0);
    assert output[|MARKER_CLARIFICATION|..] == r;
    TrimStartsTrimmed(r);
    ClobberedCut();
    CutsAtFinalCut(r);
    assert r[..14] == ":::TASK_FAILED";
    TrimStartsTrimmed(r[..14]);
  }

  lemma ClobberedCut()
    ensures FinalCut(":::TASK_FAILED:::TASK_COMPLETE:::") == 14
  {
    var r := ":::TASK_FAILED:::TASK_COMPLETE:::";
    ClobberedPositions(r);
    hide Index;
  }

  lemma ClobberedPositions(r: string)
    requires r == ":::TASK_FAILED:::TASK_COMPLETE:::"
    ensures Index(r, MARKER_COMPLETE) == 14 && Index(r, MARKER_FAILED) == 0 && Index(r, MARKER_PR_URL) == -1
  {
    hide Index;
    assert r[14..33] == MARKER_COMPLETE && r[0..17] == MARKER_FAILED;
    forall j | 0 <= j < 14 ensures !At(r, MARKER_COMPLETE, j) {
      assert r[j..j + 19][8] == r[j + 8] != MARKER_COMPLETE[8];
    }
    IndexIs(r, MARKER_COMPLETE, 14);
    IndexIs(r, MARKER_FAILED, 0);
    forall j | 0 <= j <= |r| - 12 ensures !At(r, MARKER_PR_URL, j) {
      assert r[j..j + 12][3] == r[j + 3] != MARKER_PR_URL[3];
    }
  }

  // ---------- reading back what was printed ----------

  /** After white space no terminator can reach back, and one followed by white space or the
      end is not clobbered. */
  lemma LoneTerminator(q: string, v: string, t: string, rest: string)
    requires AllSpace(v) && v != "" && t in TERMINATORS
    requires forall m :: m in TERMINATORS ==> !Occurs(q, m)
    requires rest == "" || IsSpace(rest[0])
    ensures var s := q + v + t + rest; Earliest(s) == |q| + |v| && !Clobbered(s)
  {
    hide Index, Earliest, Clobbered, Occurs, TERMINATORS, MARKER_COMPLETE, MARKER_FAILED, MARKER_PR_URL;
    var s := q + v + t + rest;
    var e := |q| + |v|;
    assert s[e..e + |t|] == t;
    assert At(s, t, e);
    forall m, j | m in TERMINATORS && j < e ensures !At(s, m, j) {
      NoneBefore(q, v, t + rest, m, j);
    }
    assert rest != "" ==> s[e + |t|] == rest[0];
    forall m, j | m in TERMINATORS && e <= j < e + |t| && e + |t| < j + |m| ensures !At(s, m, j) {
      if At(s, m, j) {
        TerminatorChars(s, m, j, e + |t|);
      }
    }
    FirstIs(s, t, e);
    NotClobbered(s, t, e);
  }

  /** The first terminator is not clobbered when none reaches beyond it. */
  lemma NotClobbered(s: string, t: string, e: nat)
    requires t in TERMINATORS && At(s, t, e) && Earliest(s) == e == Index(s, t)
    requires forall m, j :: m in TERMINATORS && e <= j < e + |t| && e + |t| < j + |m| ==> !At(s, m, j)
    ensures !Clobbered(s)
  {
    hide Earliest, At, TERMINATORS, MARKER_COMPLETE, MARKER_FAILED, MARKER_PR_URL;
    TerminatorList();
    TerminatorLengths();
    TerminatorsDiffer(s, e);
  }

  /** With `t` at `e` and nothing before it, `e` is the earliest terminator. */
  lemma FirstIs(s: string, t: string, e: nat)
    requires t in TERMINATORS && At(s, t, e)
    requires forall m, j :: m in TERMINATORS && j < e ==> !At(s, m, j)
    ensures Earliest(s) == e && Index(s, t) == e
  {
    IndexIs(s, t, e);
    assert TERMINATORS[0] == MARKER_COMPLETE && TERMINATORS[1] == MARKER_FAILED && TERMINATORS[2] == MARKER_PR_URL;
    assert forall m :: m in TERMINATORS ==> Index(s, m) == -1 || Index(s, m) >= e;
  }

  lemma NoneBefore(q: string, v: string, tail: string, m: string, j: int)
    requires AllSpace(v) && v != "" && m in TERMINATORS && !Occurs(q, m)
    requires j < |q| + |v|
    ensures !At(q + v + tail, m, j)
  {
    var s := q + v + tail;
    assert 0 <= j && j + |m| <= |q| ==> q[j..j + |m|] == s[j..j + |m|];
    assert At(s, m, j) && j + |m| <= |q| ==> At(q, m, j);
    var k := if j < |q| then |q| else j;
    assert IsSpace(v[k - |q|]) && s[k] == v[k - |q|];
    if At(s, m, j) && |q| < j + |m| {
      TerminatorChars(s, m, j, k);
    }
  }

  /** Trimming what follows the clarification marker only shortens the part after `t`. */
  lemma TrimmedTail(w: string, q: string, v: string, t: string, rest: string) returns (n: nat)
    requires AllSpace(w) && q != "" && Trimmed(q) && t in TERMINATORS
    ensures n <= |rest| && TrimSpace(w + (q + v + t + rest)) == q + v + t + rest[..n]
  {
    TerminatorList();
    hide TrimSpace, TERMINATORS, MARKER_COMPLETE, MARKER_FAILED, MARKER_PR_URL;
    n := SpacesFrom(rest);
    var shown := q + v + t;
    var r := shown + rest[..n];
    assert shown[|q| + |v|..|q| + |v| + |t|] == t;
    TerminatorChars(shown, t, |q| + |v|, |shown| - 1);
    assert r[0] == q[0];
    assert r[|r| - 1] == if n == 0 then shown[|shown| - 1] else rest[n - 1];
    assert w + (q + v + t + rest) == w + r + rest[n..];
    TrimUnique(w, r, rest[n..]);
  }

  lemma CutReadsBack(q: string, v: string, t: string, rest: string)
    requires AllSpace(v) && v != "" && t in TERMINATORS
    requires Trimmed(q) && forall m :: m in TERMINATORS ==> !Occurs(q, m)
    requires rest == "" || IsSpace(rest[0])
    ensures var r := q + v + t + rest; TrimSpace(r[..FinalCut(r)]) == q
  {
    hide TrimSpace, FinalCut, Earliest, Clobbered, TERMINATORS;
    var r := q + v + t + rest;
    LoneTerminator(q, v, t, rest);
    FinalCutIs(r);
    assert r[..|q| + |v|] == "" + q + v;
    TrimUnique("", q, v);
  }

  /** A trimmed question without terminators, printed on its own lines between the markers,
      is read back exactly, whatever came before and comes after. */
  lemma QuestionReadsBack(pre: string, w: string, q: string, v: string, t: string, rest: string)
    requires AllSpace(w) && AllSpace(v) && v != "" && t in TERMINATORS
    requires q != "" && Trimmed(q) && forall m :: m in TERMINATORS ==> !Occurs(q, m)
    requires rest == "" || IsSpace(rest[0])
    requires Index(pre + MARKER_CLARIFICATION, MARKER_CLARIFICATION) == |pre|
    ensures Clarification(pre + MARKER_CLARIFICATION + (w + (q + v + t + rest))) == q
  {
    hide FinalCut, Cut, Index, TrimSpace, TERMINATORS, MARKER_COMPLETE, MARKER_FAILED, MARKER_CLARIFICATION,
         MARKER_PR_URL;
    var head, body := pre + MARKER_CLARIFICATION, w + (q + v + t + rest);
    FirstMarkerStays(head, body, MARKER_CLARIFICATION);
    assert (head + body)[|head|..] == body;
    var n := TrimmedTail(w, q, v, t, rest);
    CutsAtFinalCut(q + v + t + rest[..n]);
    CutReadsBack(q, v, t, rest[..n]);
  }

  /** When the text after the clarification marker is `q`, white space, and then its first terminator
      or nothing, `q` is read back if and only if that terminator is not clobbered. */
  lemma QuestionReadsBackIff(output: string, q: string, v: string)
    requires Contains(output, MARKER_CLARIFICATION) && AllSpace(v) && q != "" && Trimmed(q)
    requires var r := Remaining(output); Earliest(r) == |q| + |v| && r[..|q| + |v|] == q + v
    ensures Clarification(output) == q <==> !Clobbered(Remaining(output))
  {
    hide Clarification, Remaining, Earliest, Clobbered, TrimSpace, MARKER_CLARIFICATION;
    EndsAtNextMarker(output);
    assert "" + q + v == q + v;
    TrimUnique("", q, v);
  }

  /** A question that ends the output, without any terminator after it, is read back exactly. */
  lemma QuestionAtEnd(pre: string, w: string, q: string, v: string)
    requires AllSpace(w) && AllSpace(v)
    requires q != "" && Trimmed(q) && forall m :: m in TERMINATORS ==> !Occurs(q, m)
    requires Index(pre + MARKER_CLARIFICATION, MARKER_CLARIFICATION) == |pre|
    ensures Clarification(pre + MARKER_CLARIFICATION + (w + q + v)) == q
  {
    TerminatorList();
    hide FinalCut, Cut, Index, TrimSpace, TERMINATORS, MARKER_COMPLETE, MARKER_FAILED, MARKER_CLARIFICATION,
         MARKER_PR_URL;
    var head, body := pre + MARKER_CLARIFICATION, w + q + v;
    FirstMarkerStays(head, body, MARKER_CLARIFICATION);
    assert (head + body)[|head|..] == body;
    TrimUnique(w, q, v);
    assert q[..|q|] == q && q + "" == q;
    QuestionReadsBackIff(head + body, q, "");
  }

  /** A question directly before its terminator: it is read back if and only if that terminator is
      not clobbered. `u` is the white space that ends the output. */
  lemma QuestionBeforeMarker(pre: string, w: string, q: string, t: string, rest: string, u: string)
    requires AllSpace(w) && AllSpace(u) && q != "" && Trimmed(q) && t in TERMINATORS
    requires rest == "" || !IsSpace(rest[|rest| - 1])
    requires Index(pre + MARKER_CLARIFICATION, MARKER_CLARIFICATION) == |pre|
    requires Earliest(q + t + rest) == |q|
    ensures Clarification(pre + MARKER_CLARIFICATION + (w + (q + t + rest) + u)) == q <==> !Clobbered(q + t + rest)
  {
    hide FinalCut, Cut, Index, TrimSpace, Earliest, Clobbered, TERMINATORS, MARKER_COMPLETE, MARKER_FAILED,
         MARKER_CLARIFICATION, MARKER_PR_URL;
    var head, r := pre + MARKER_CLARIFICATION, q + t + rest;
    var body := w + r + u;
    FirstMarkerStays(head, body, MARKER_CLARIFICATION);
    assert (head + body)[|head|..] == body;
    EndsTrimmed(q, t, rest);
    TrimUnique(w, r, u);
    assert r[..|q|] == q && q + "" == q;
    QuestionReadsBackIff(head + body, q, "");
  }

  lemma EndsTrimmed(q: string, t: string, rest: string)
    requires q != "" && Trimmed(q) && t in TERMINATORS
    requires rest == "" || !IsSpace(rest[|rest| - 1])
    ensures Trimmed(q + t + rest)
  {
    TerminatorList();
    hide TERMINATORS, MARKER_COMPLETE, MARKER_FAILED, MARKER_PR_URL;
    var r := q + t + rest;
    assert r[|q|..|q| + |t|] == t;
    TerminatorChars(r, t, |q|, |q| + |t| - 1);
    assert r[0] == q[0];
    assert r[|r| - 1] == if rest == "" then r[|q| + |t| - 1] else rest[|rest| - 1];
  }

  /** Appending to a text keeps the first occurrence of a marker. */
  lemma FirstMarkerStays(s: string, t: string, m: string)
    requires Index(s, m) != -1
    ensures Index(s + t, m) == Index(s, m)
  {
    assert (s + t)[..|s|] == s;
    IndexInPrefix(s + t, m, |s|);
  }

  // ---------- pull request URLs ----------

  /** The length of the first word. */
  function WordLength(s: string): (n: nat)
    ensures n <= |s| && (forall i :: 0 <= i < n ==> !IsSpace(s[i]))
    ensures n < |s| ==> IsSpace(s[n])
  {
    if s == "" || IsSpace(s[0]) then 0 else 1 + WordLength(s[1..])
  }

  /** strings.Fields. */
  function Fields(s: string): (words: seq<string>)
    ensures forall w :: w in words ==> w != "" && NoSpace(w)
    ensures words == [] <==> AllSpace(s)
    decreases |s|
  {
    var a := SpacesBefore(s);
    if a == |s| then []
    else
      assert !AllSpace(s);
      var n := WordLength(s[a..]);
      [s[a..][..n]] + Fields(s[a..][n..])
  }

  /** parsePRURL. */
  function PullRequestURL(output: string): string {
    var idx := Index(output, MARKER_PR_URL);
    if idx == -1 then ""
    else
      var fields := Fields(TrimSpace(output[idx + |MARKER_PR_URL|..]));
      if |fields| == 0 then "" else fields[0]
  }

  lemma {:induction false} WordLengthIs(u: string, rest: string)
    requires NoSpace(u) && (rest == "" || IsSpace(rest[0]))
    ensures WordLength(u + rest) == |u|
  {
    if u == "" {
      assert u + rest == rest;
    } else {
      assert (u + rest)[1..] == u[1..] + rest;
      WordLengthIs(u[1..], rest);
    }
  }

  /** A URL printed after its marker is read back, and nothing with white space ever is. */
  lemma URLReadsBack(pre: string, w: string, url: string, rest: string)
    requires AllSpace(w) && url != "" && NoSpace(url)
    requires rest == "" || IsSpace(rest[0])
    requires Index(pre + MARKER_PR_URL, MARKER_PR_URL) == |pre|
    ensures PullRequestURL(pre + MARKER_PR_URL + (w + (url + rest))) == url
  {
    hide Index, TrimSpace, TERMINATORS, MARKER_PR_URL;
    var head, body := pre + MARKER_PR_URL, url + rest;
    FirstMarkerStays(head, w + body, MARKER_PR_URL);
    assert (head + (w + body))[|head|..] == w + body;
    var n := SpacesFrom(rest);
    var r := url + rest[..n];
    assert w + body == w + r + rest[n..];
    assert r[|r| - 1] == if n == 0 then url[|url| - 1] else rest[n - 1];
    TrimUnique(w, r, rest[n..]);
    SpacesBeforeIs(r, 0);
    WordLengthIs(url, rest[..n]);
    assert r[0..] == r && r[..|url|] == url;
  }

  /** The URL is one word, and it is empty only without a marker or with nothing after it. */
  lemma URLShape(output: string)
    ensures NoSpace(PullRequestURL(output))
    ensures PullRequestURL(output) == "" <==>
            (!Contains(output, MARKER_PR_URL)
             || AllSpace(output[Index(output, MARKER_PR_URL) + |MARKER_PR_URL|..]))
  {
    hide Index, TrimSpace, Fields, AllSpace, NoSpace, MARKER_PR_URL;
    if Contains(output, MARKER_PR_URL) {
      FirstWord(output[Index(output, MARKER_PR_URL) + |MARKER_PR_URL|..]);
    } else {
      EmptyNoSpace();
    }
  }

  lemma EmptyNoSpace()
    ensures NoSpace("")
  {
  }

  /** Trimming leaves a word exactly when there is one. */
  lemma FirstWord(after: string)
    ensures var fields := Fields(TrimSpace(after));
            if fields == [] then AllSpace(after) else !AllSpace(after) && fields[0] != "" && NoSpace(fields[0])
    ensures NoSpace("")
  {
    hide TrimSpace, Fields, AllSpace, NoSpace;
    TrimAllSpace(after);
    EmptyNoSpace();
    var fields := Fields(TrimSpace(after));
    if fields != [] {
      assert fields[0] in fields;
    }
  }
}
