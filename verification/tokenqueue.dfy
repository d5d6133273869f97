/**
 The tokenizer object: the pure scanner wrapped in a small look-ahead queue.

 Source: code/tokenizer.py, `Tokenizer.__init__`, `consume` and `peek`. The
 object is modelled as an immutable record and each operation returns the
 updated record. The queue logic does not depend on how a token is found, so it
 is stated for any scanning function that resumes at the end of the token it
 returns; `SearchNext` is one. The queue is proved to agree with the stream
 such a function produces, and for `SearchNext` that stream is `Lex`, which is
 what the parser reads.
 */
module TokenQueue {
  import opened Tokens
  import opened Scanner

  /** A scanning function in the shape of `SearchNext`: the next token at or
      after a position, and the position to resume from. */
  type ScanFunction = (string, nat) -> (Token, nat)

  /** The scanner resumes where the token it returned ends. */
  ghost predicate ResumesAtTokenEnd(scan: ScanFunction) {
    forall text: string, p: nat :: scan(text, p).1 == scan(text, p).0.End()
  }

  lemma SearchNextResumesAtTokenEnd()
    ensures ResumesAtTokenEnd(SearchNext)
  {
  }

  /** The `k`-th token (counting from 1) that `scan` produces from `position`,
      each scan resuming where the previous one stopped. */
  function Nth(scan: ScanFunction, text: string, position: nat, k: nat): Token
    requires k >= 1
    decreases k
  {
    var (token, next) := scan(text, position);
    if k == 1 then token else Nth(scan, text, next, k - 1)
  }

  datatype Tokenizer = Tokenizer(
    text: string,
    startPosition: nat,
    peekQueue: seq<Token>,
    endIdxOfLastConsumedToken: int)

  /** The queue holds the next tokens of the stream from `startPosition`, in
      order. Every operation keeps this invariant. */
  ghost predicate Valid(scan: ScanFunction, tz: Tokenizer) {
    forall i | 0 <= i < |tz.peekQueue| :: tz.peekQueue[i] == Nth(scan, tz.text, tz.startPosition, i + 1)
  }

  /** A fresh tokenizer: empty queue, nothing consumed yet. */
  function NewTokenizer(scan: ScanFunction, text: string, startPosition: nat): (tz: Tokenizer)
    ensures Valid(scan, tz)
    ensures tz.text == text && tz.startPosition == startPosition
    ensures tz.peekQueue == [] && tz.endIdxOfLastConsumedToken == -1
  {
    Tokenizer(text, startPosition, [], -1)
  }

  /** The token after the first `n` starts where the `n`-th one ends. */
  lemma {:induction false} NthStep(scan: ScanFunction, text: string, p: nat, n: nat)
    requires ResumesAtTokenEnd(scan)
    requires n >= 1
    ensures Nth(scan, text, p, n + 1) == scan(text, Nth(scan, text, p, n).End()).0
    decreases n
  {
    if n > 1 {
      NthStep(scan, text, scan(text, p).1, n - 1);
    }
  }

  /** Take the next token. It is the first token of the stream; afterwards the
      stream is the old one shifted by one, and the end of the consumed token
      is recorded. */
  function Consume(scan: ScanFunction, tz: Tokenizer): (r: (Token, Tokenizer))
    requires ResumesAtTokenEnd(scan) && Valid(scan, tz)
    ensures r.0 == Nth(scan, tz.text, tz.startPosition, 1)
    ensures Valid(scan, r.1) && r.1.text == tz.text
    ensures r.1.startPosition == r.0.End() && r.1.endIdxOfLastConsumedToken == r.0.End()
    ensures forall k | k >= 1 ::
              Nth(scan, r.1.text, r.1.startPosition, k) == Nth(scan, tz.text, tz.startPosition, k + 1)
    ensures |tz.peekQueue| > 0 ==> r.1.peekQueue == tz.peekQueue[1..]
    ensures |tz.peekQueue| == 0 ==> r.1.peekQueue == []
  {
    if |tz.peekQueue| > 0 then
      var ret := tz.peekQueue[0];
      (ret, tz.(peekQueue := tz.peekQueue[1..], startPosition := ret.End(), endIdxOfLastConsumedToken := ret.End()))
    else
      var (ret, position) := scan(tz.text, tz.startPosition);
      (ret, tz.(startPosition := position, endIdxOfLastConsumedToken := ret.End()))
  }

  /** Look `k` tokens ahead without moving: the result is the `k`-th token of
      the stream, and the stream itself, the position and the recorded end are
      unchanged; only the queue grows to hold at least `k` tokens. */
  method Peek(scan: ScanFunction, tz: Tokenizer, k: nat) returns (t: Token, tz': Tokenizer)
    requires ResumesAtTokenEnd(scan) && Valid(scan, tz)
    requires k > 0
    ensures t == Nth(scan, tz.text, tz.startPosition, k)
    ensures Valid(scan, tz')
    ensures tz'.text == tz.text && tz'.startPosition == tz.startPosition
    ensures tz'.endIdxOfLastConsumedToken == tz.endIdxOfLastConsumedToken
    ensures |tz'.peekQueue| >= k && |tz'.peekQueue| >= |tz.peekQueue|
    ensures tz'.peekQueue[..|tz.peekQueue|] == tz.peekQueue
  {
    var queue := tz.peekQueue;
    var position := if |queue| > 0 then queue[|queue| - 1].End() else tz.startPosition;
    while |queue| < k
      invariant |tz.peekQueue| <= |queue| && queue[..|tz.peekQueue|] == tz.peekQueue
      invariant forall i | 0 <= i < |queue| :: queue[i] == Nth(scan, tz.text, tz.startPosition, i + 1)
      invariant position == if |queue| > 0 then queue[|queue| - 1].End() else tz.startPosition
      decreases k - |queue|
    {
      if |queue| > 0 {
        NthStep(scan, tz.text, tz.startPosition, |queue|);
      }
      var (token, next) := scan(tz.text, position);
      queue := queue + [token];
      position := next;
    }
    t := queue[k - 1];
    tz' := tz.(peekQueue := queue);
  }

  /** Peeking ahead never changes what `Consume` returns next: peeking `k`
      tokens and then consuming yields the same token and the same position
      and recorded end as consuming straight away. */
  method PeekThenConsume(scan: ScanFunction, tz: Tokenizer, k: nat)
    returns (peeked: Token, consumed: Token, tz': Tokenizer)
    requires ResumesAtTokenEnd(scan) && Valid(scan, tz)
    requires k > 0
    ensures consumed == Consume(scan, tz).0
    ensures k == 1 ==> peeked == consumed
    ensures Valid(scan, tz') && tz'.text == tz.text
    ensures tz'.startPosition == Consume(scan, tz).1.startPosition
    ensures tz'.endIdxOfLastConsumedToken == Consume(scan, tz).1.endIdxOfLastConsumedToken
  {
    var tz1;
    peeked, tz1 := Peek(scan, tz, k);
    var r := Consume(scan, tz1);
    consumed, tz' := r.0, r.1;
  }

  /** Consuming `n` tokens one after another yields exactly the first `n`
      tokens the scanner produces from the start position, and the recorded
      end is the end of the last of them. */
  method ConsumeMany(scan: ScanFunction, tz: Tokenizer, n: nat) returns (ts: seq<Token>, tz': Tokenizer)
    requires ResumesAtTokenEnd(scan) && Valid(scan, tz)
    ensures |ts| == n
    ensures forall i | 0 <= i < n :: ts[i] == Nth(scan, tz.text, tz.startPosition, i + 1)
    ensures Valid(scan, tz') && tz'.text == tz.text
    ensures n > 0 ==> tz'.startPosition == ts[n - 1].End() == tz'.endIdxOfLastConsumedToken
    ensures n == 0 ==> tz' == tz
  {
    ts := [];
    tz' := tz;
    while |ts| < n
      invariant |ts| <= n
      invariant Valid(scan, tz') && tz'.text == tz.text
      invariant forall i | 0 <= i < |ts| :: ts[i] == Nth(scan, tz.text, tz.startPosition, i + 1)
      invariant |ts| > 0 ==> tz'.startPosition == ts[|ts| - 1].End() == tz'.endIdxOfLastConsumedToken
      invariant |ts| == 0 ==> tz' == tz
      decreases n - |ts|
    {
      if |ts| > 0 {
        NthStep(scan, tz.text, tz.startPosition, |ts|);
      }
      var r := Consume(scan, tz');
      ts := ts + [r.0];
      tz' := r.1;
    }
  }

  /** A stream function in the shape of `Lex`: all the tokens from a position. */
  type LexFunction = (string, nat) -> TokenStream

  /** `lex` collects what `scan` returns: the end-of-text marker, which every
      further scan returns again, ends the stream; any other token is followed
      by the stream from where it ends. */
  ghost predicate Unrolls(scan: ScanFunction, lex: LexFunction) {
    forall text: string, p: nat ::
      && (scan(text, p).0.IsEndOfString() ==>
            lex(text, p) == TokenStream([], scan(text, p).0) && scan(text, scan(text, p).1) == scan(text, p))
      && (!scan(text, p).0.IsEndOfString() ==>
            lex(text, p) == TokenStream([scan(text, p).0] + lex(text, scan(text, p).1).tokens, lex(text, scan(text, p).1).endOfString))
  }

  /** The `i`-th token (from 0) of a stream that unrolls a scanner is the
      `i + 1`-th scan, including the end-of-text marker past the end. */
  lemma {:induction false} UnrolledStreamIsNth(scan: ScanFunction, lex: LexFunction, text: string, position: nat, i: nat)
    requires Unrolls(scan, lex)
    ensures lex(text, position).At(i) == Nth(scan, text, position, i + 1)
    decreases i
  {
    var (t, next) := scan(text, position);
    if i > 0 {
      UnrolledStreamIsNth(scan, lex, text, next, i - 1);
    }
  }

  lemma LexUnrolls()
    ensures Unrolls(SearchNext, Lex)
  {
    forall text: string, p: nat | SearchNext(text, p).0.IsEndOfString()
      ensures SearchNext(text, SearchNext(text, p).1) == SearchNext(text, p)
    {
      EndOfStringIsSticky(text, p);
    }
  }

  /** For `SearchNext`, the stream the queue serves is `Lex`: its `i`-th token
      (from 0) is the `i + 1`-th scan, including the end-of-text marker that
      every scan past the end returns. */
  lemma LexIsTheScannerStream(text: string, position: nat, i: nat)
    ensures Lex(text, position).At(i) == Nth(SearchNext, text, position, i + 1)
  {
    LexUnrolls();
    UnrolledStreamIsNth(SearchNext, Lex, text, position, i);
  }
}
