/** The pass between lexer and parser that turns line indentation into INDENT and DEDENT tokens. */
module Layout {

  datatype Token =
    | Space(width: nat) | Newline | Indent | Dedent | Eof
    | LBrace | LBracket | LBracketBar
    | RBrace | RBracket | RBracketBar
    | Other(id: int)

  datatype Context = TopLevel | Inside

  type Located = (Token, Context)

  predicate IsOpen(t: Token) {
    t.LBrace? || t.LBracket? || t.LBracketBar?
  }

  predicate IsClose(t: Token) {
    t.RBrace? || t.RBracket? || t.RBracketBar?
  }

  // ----- structural context -----

  function UpdateStack(stack: seq<Context>, t: Token): seq<Context> {
    if IsOpen(t) then [Inside] + stack
    else if IsClose(t) then (if stack == [] then [TopLevel] else stack[1..])
    else stack
  }

  function ContextOf(stack: seq<Context>): Context {
    if stack != [] && stack[0] == TopLevel then TopLevel else Inside
  }

  /** The tokens up to the first end of file, each with the context it stands in. */
  function Collect(raw: seq<Token>, stack: seq<Context>): seq<Located>
    decreases |raw|
  {
    if raw == [] then []
    else if raw[0] == Eof then [(Eof, ContextOf(stack))]
    else [(raw[0], ContextOf(stack))] + Collect(raw[1..], UpdateStack(stack, raw[0]))
  }

  function CollectWithContext(raw: seq<Token>): seq<Located> {
    Collect(raw, [TopLevel])
  }

  /** Opening brackets less closing ones among the first `k` tokens. */
  function Balance(raw: seq<Token>, k: nat): int
    requires k <= |raw|
  {
    if k == 0 then 0
    else Balance(raw, k - 1) + (if IsOpen(raw[k - 1]) then 1 else if IsClose(raw[k - 1]) then -1 else 0)
  }

  /** The least balance among the first `k` tokens: below 0 by the number of brackets that are closed
      without having been opened. */
  ghost predicate IsLowest(raw: seq<Token>, k: nat, m: int)
    requires k <= |raw|
  {
    (exists i :: 0 <= i <= k && Balance(raw, i) == m) && forall i :: 0 <= i <= k ==> Balance(raw, i) >= m
  }

  function Lowest(raw: seq<Token>, k: nat): (m: int)
    requires k <= |raw|
    ensures m <= 0 && m <= Balance(raw, k)
  {
    if k == 0 then 0
    else
      var m := Lowest(raw, k - 1);
      if Balance(raw, k) < m then Balance(raw, k) else m
  }

  lemma {:induction false} LowestIsLowest(raw: seq<Token>, k: nat)
    requires k <= |raw|
    ensures IsLowest(raw, k, Lowest(raw, k))
    decreases k
  {
    if k == 0 {
      assert Balance(raw, 0) == 0;
    } else {
      LowestIsLowest(raw, k - 1);
    }
  }

  /** `depth` brackets open, over a bottom that says top level or over none. */
  function Nested(depth: nat, bottom: bool): (s: seq<Context>)
    ensures |s| == depth + (if bottom then 1 else 0)
    ensures ContextOf(s) == TopLevel <==> bottom && depth == 0
  {
    if depth > 0 then [Inside] + Nested(depth - 1, bottom) else if bottom then [TopLevel] else []
  }

  lemma {:induction false} CollectAt(raw: seq<Token>, stack: seq<Context>, k: nat)
    requires k < |raw| && (forall i :: 0 <= i < k ==> raw[i] != Eof)
    ensures k < |Collect(raw, stack)| && Collect(raw, stack)[k].0 == raw[k]
    ensures Collect(raw, stack)[k].1 == ContextOf(StackAt(raw, stack, k))
    decreases k
  {
    if k > 0 {
      var rest := raw[1..];
      forall i | 0 <= i < k - 1 ensures rest[i] != Eof {
        assert rest[i] == raw[i + 1];
      }
      CollectAt(rest, UpdateStack(stack, raw[0]), k - 1);
      StackShift(raw, stack, k);
    }
  }

  function StackAt(raw: seq<Token>, stack: seq<Context>, k: nat): seq<Context>
    requires k <= |raw|
  {
    if k == 0 then stack else UpdateStack(StackAt(raw, stack, k - 1), raw[k - 1])
  }

  lemma {:induction false} StackShift(raw: seq<Token>, stack: seq<Context>, k: nat)
    requires 0 < k <= |raw|
    ensures StackAt(raw, stack, k) == StackAt(raw[1..], UpdateStack(stack, raw[0]), k - 1)
    decreases k
  {
    if k > 1 {
      StackShift(raw, stack, k - 1);
      assert raw[1..][k - 2] == raw[k - 1];
    }
  }

  /** Every bracket closed without having been opened takes the bottom away or puts it back. */
  lemma {:induction false} StackIsNested(raw: seq<Token>, k: nat)
    requires k <= |raw|
    ensures var m := Lowest(raw, k);
      Balance(raw, k) >= m && StackAt(raw, [TopLevel], k) == Nested(Balance(raw, k) - m, m % 2 == 0)
    decreases k
  {
    if k > 0 {
      StackIsNested(raw, k - 1);
      var m := Lowest(raw, k - 1);
      NestedUpdate(Balance(raw, k - 1) - m, m, raw[k - 1]);
      assert StackAt(raw, [TopLevel], k) == UpdateStack(StackAt(raw, [TopLevel], k - 1), raw[k - 1]);
    }
  }

  /** One token; only a bracket closed at depth 0 lowers the least balance. */
  lemma NestedUpdate(depth: nat, m: int, t: Token)
    requires m <= 0
    ensures var s := UpdateStack(Nested(depth, m % 2 == 0), t);
      if IsOpen(t) then s == Nested(depth + 1, m % 2 == 0)
      else if !IsClose(t) then s == Nested(depth, m % 2 == 0)
      else if depth > 0 then s == Nested(depth - 1, m % 2 == 0)
      else s == Nested(0, (m - 1) % 2 == 0)
  {
  }

  /** The context of every token of every input: top level if and only if no bracket is open that will still be
      closed, and the number of brackets closed without having been opened is even. */
  lemma ContextIsBalance(raw: seq<Token>, k: nat, m: int)
    requires k < |raw| && (forall i :: 0 <= i < k ==> raw[i] != Eof) && IsLowest(raw, k, m)
    ensures k < |CollectWithContext(raw)| && CollectWithContext(raw)[k].0 == raw[k]
    ensures CollectWithContext(raw)[k].1 == TopLevel <==> Balance(raw, k) == m && m % 2 == 0
  {
    LowestIsLowest(raw, k);
    assert m == Lowest(raw, k);
    CollectAt(raw, [TopLevel], k);
    StackIsNested(raw, k);
  }

  /** So a token is at top level exactly when all brackets before it are closed if and only if none was closed
      without having been opened, or the token stands neither at balance 0 nor, after an even number of such
      closings, at the least balance. */
  lemma TopLevelMeansBalancedIff(raw: seq<Token>, k: nat, m: int)
    requires k < |raw| && (forall i :: 0 <= i < k ==> raw[i] != Eof) && IsLowest(raw, k, m)
    ensures k < |CollectWithContext(raw)|
    ensures (CollectWithContext(raw)[k].1 == TopLevel <==> Balance(raw, k) == 0)
       <==> m == 0 || (Balance(raw, k) != 0 && (Balance(raw, k) != m || m % 2 == 1))
  {
    ContextIsBalance(raw, k, m);
    assert Balance(raw, 0) == 0;
  }

  /** An unmatched closing bracket followed by an opening one: the balance is 0 again, yet what follows counts
      as inside a bracket. A second unmatched closing bracket brings the top level back. */
  lemma StrayClosersToggleTopLevel()
    ensures CollectWithContext([RBrace, LBrace, Newline, Eof])[2] == (Newline, Inside)
    ensures Balance([RBrace, LBrace, Newline, Eof], 2) == 0
    ensures CollectWithContext([RBrace, RBrace, Newline, Eof])[2] == (Newline, TopLevel)
    ensures Balance([RBrace, RBrace, Newline, Eof], 2) == -2
  {
    var x, y := [RBrace, LBrace, Newline, Eof], [RBrace, RBrace, Newline, Eof];
    assert Balance(x, 0) == 0 && Balance(x, 1) == -1 && Balance(x, 2) == 0;
    assert Balance(y, 0) == 0 && Balance(y, 1) == -1 && Balance(y, 2) == -2;
    ContextIsBalance(x, 2, -1);
    ContextIsBalance(y, 2, -2);
  }

  // ----- indentation -----

  function SkipTopSpaces(ts: seq<Located>, i: nat): (j: nat)
    requires i <= |ts|
    ensures i <= j <= |ts|
    decreases |ts| - i
  {
    if i < |ts| && ts[i].0.Space? && ts[i].1 == TopLevel then SkipTopSpaces(ts, i + 1) else i
  }

  /** The next token that is not a top-level space opens a bracket at top level. */
  predicate BeforeOpen(ts: seq<Located>, i: nat)
    requires i <= |ts|
  {
    var j := SkipTopSpaces(ts, i);
    j < |ts| && ts[j].1 == TopLevel && IsOpen(ts[j].0)
  }

  /** Indents grow strictly towards the head, over a bottom of 0. */
  ghost predicate WellStacked(stack: seq<nat>) {
    stack != [] && stack[|stack| - 1] == 0 && forall i, j :: 0 <= i < j < |stack| ==> stack[i] > stack[j]
  }

  function Repeat(t: Token, n: nat): (r: seq<Token>)
    ensures |r| == n && forall i :: 0 <= i < n ==> r[i] == t
  {
    if n == 0 then [] else Repeat(t, n - 1) + [t]
  }

  /** The part of the stack that a line of this indentation is nested in. */
  function Enclosing(stack: seq<nat>, indent: nat): (r: seq<nat>)
    ensures |r| <= |stack|
  {
    if stack != [] && stack[0] > indent then Enclosing(stack[1..], indent) else stack
  }

  function StackAfter(stack: seq<nat>, indent: nat): seq<nat>
    requires stack != []
  {
    if indent > stack[0] then [indent] + stack else Enclosing(stack, indent)
  }

  /** A deeper line opens one block; any other closes the blocks it is not nested in. */
  function Change(stack: seq<nat>, indent: nat): seq<Token>
    requires stack != []
  {
    if indent > stack[0] then [Indent] else Repeat(Dedent, |stack| - |Enclosing(stack, indent)|)
  }

  lemma {:induction false} EnclosingOk(stack: seq<nat>, indent: nat)
    requires WellStacked(stack)
    ensures var r := Enclosing(stack, indent);
      && WellStacked(r) && r[0] <= indent && r == stack[|stack| - |r|..]
      && forall i :: 0 <= i < |stack| - |r| ==> stack[i] > indent
    decreases |stack|
  {
    if stack[0] > indent {
      EnclosingOk(stack[1..], indent);
      var r := Enclosing(stack, indent);
      forall i | 0 <= i < |stack| - |r| ensures stack[i] > indent {
        assert i > 0 ==> stack[i] == stack[1..][i - 1];
      }
    }
  }

  /** The stack stays strictly increasing over 0, and its top never exceeds the line's indentation. */
  lemma StackStaysOk(stack: seq<nat>, indent: nat)
    requires WellStacked(stack)
    ensures WellStacked(StackAfter(stack, indent)) && StackAfter(stack, indent)[0] <= indent
    ensures |StackAfter(stack, indent)| - |stack| == Depth(Change(stack, indent))
  {
    if indent > stack[0] {
      assert Depth([Indent]) == 1 by {
        assert [Indent][..0] == [];
      }
    } else {
      EnclosingOk(stack, indent);
      RepeatDepth(|stack| - |Enclosing(stack, indent)|);
    }
  }

  /** INDENTs less DEDENTs. */
  function Depth(out: seq<Token>): int {
    if out == [] then 0
    else Depth(out[..|out| - 1]) + (if out[|out| - 1] == Indent then 1 else if out[|out| - 1] == Dedent then -1 else 0)
  }

  lemma {:induction false} DepthAppend(a: seq<Token>, b: seq<Token>)
    ensures Depth(a + b) == Depth(a) + Depth(b)
    decreases |b|
  {
    if b == [] {
      assert a + b == a;
    } else {
      DepthAppend(a, b[..|b| - 1]);
      assert (a + b)[..|a + b| - 1] == a + b[..|b| - 1];
    }
  }

  lemma {:induction false} RepeatDepth(n: nat)
    ensures Depth(Repeat(Dedent, n)) == 0 - n
  {
    if n > 0 {
      RepeatDepth(n - 1);
      assert Repeat(Dedent, n)[..n - 1] == Repeat(Dedent, n - 1);
    }
  }

  // ----- the pass as a function -----

  /** State between two tokens. */
  datatype State = State(stack: seq<nat>, pending: bool)

  /** One token: what it emits and the state after it. */
  function Step(ts: seq<Located>, i: nat, s: State): (seq<Token>, State)
    requires i < |ts| && s.stack != []
  {
    var (t, ctx) := ts[i];
    if ctx == Inside && (t.Space? || t.Newline?) then ([], s)
    else if t.Newline? then
      (if BeforeOpen(ts, i + 1) then ([], s.(pending := false)) else ([Newline], s.(pending := true)))
    else if ctx == TopLevel && s.pending then
      (if t.Space? then (Change(s.stack, t.width), State(StackAfter(s.stack, t.width), false))
       else (Change(s.stack, 0) + [t], State(StackAfter(s.stack, 0), false)))
    else if t.Eof? then (Repeat(Dedent, |s.stack| - 1) + [Eof], s.(stack := s.stack[|s.stack| - 1..]))
    else if t.Space? then ([], s)
    else ([t], s.(pending := false))
  }

  /** The tokens emitted from position `i` on. */
  ghost function Output(ts: seq<Located>, i: nat, s: State): seq<Token>
    requires i <= |ts| && WellStacked(s.stack)
    decreases |ts| - i
  {
    if i == |ts| then []
    else
      StepKeepsStack(ts, i, s);
      Step(ts, i, s).0 + Output(ts, i + 1, Step(ts, i, s).1)
  }

  lemma StepKeepsStack(ts: seq<Located>, i: nat, s: State)
    requires i < |ts| && WellStacked(s.stack)
    ensures WellStacked(Step(ts, i, s).1.stack)
  {
    StackStaysOk(s.stack, 0);
    if ts[i].0.Space? {
      StackStaysOk(s.stack, ts[i].0.width);
    }
  }

  // ----- what the pass guarantees -----

  /** The lexer's tokens: no layout tokens, and one end of file, at the end. */
  ghost predicate Lexed(ts: seq<Located>) {
    && ts != [] && ts[|ts| - 1].0 == Eof
    && (forall i :: 0 <= i < |ts| - 1 ==> ts[i].0 != Eof)
    && (forall i :: 0 <= i < |ts| ==> ts[i].0 != Indent && ts[i].0 != Dedent)
  }

  /** What is collected from a lexer that reaches the end of the file is such a list. */
  lemma {:induction false} CollectIsLexed(raw: seq<Token>, stack: seq<Context>)
    requires Eof in raw && forall t :: t in raw ==> t != Indent && t != Dedent
    ensures Lexed(Collect(raw, stack))
    decreases |raw|
  {
    if raw[0] != Eof {
      var rest := Collect(raw[1..], UpdateStack(stack, raw[0]));
      assert raw == [raw[0]] + raw[1..];
      forall t | t in raw[1..] ensures t in raw {
      }
      CollectIsLexed(raw[1..], UpdateStack(stack, raw[0]));
      var ts := Collect(raw, stack);
      forall i | 0 <= i < |ts| ensures ts[i].0 != Indent && ts[i].0 != Dedent && (i < |ts| - 1 ==> ts[i].0 != Eof) {
        assert raw[0] in raw && (i == 0 ==> ts[i].0 == raw[0]);
        assert i > 0 ==> ts[i] == rest[i - 1];
      }
    }
  }

  /** A step changes the depth by as much as the stack. */
  lemma StepDepth(ts: seq<Located>, i: nat, s: State)
    requires i < |ts| && WellStacked(s.stack) && Lexed(ts)
    ensures WellStacked(Step(ts, i, s).1.stack)
    ensures Depth(Step(ts, i, s).0) == |Step(ts, i, s).1.stack| - |s.stack|
    ensures PrefixesAbove(Step(ts, i, s).0, |s.stack| - 1)
  {
    StepKeepsStack(ts, i, s);
    var t := ts[i].0;
    if ts[i].1 == TopLevel && s.pending && !t.Newline? {
      PendingDepth(s.stack, t);
    } else if t.Eof? {
      EofDepth(s.stack);
    } else {
      SingleDepth(t);
      PlainPrefixes(Step(ts, i, s).0, t, |s.stack| - 1);
    }
  }

  lemma PendingDepth(stack: seq<nat>, t: Token)
    requires WellStacked(stack) && t != Indent && t != Dedent
    ensures var w := if t.Space? then t.width else 0;
      var out := if t.Space? then Change(stack, w) else Change(stack, w) + [t];
      Depth(out) == |StackAfter(stack, w)| - |stack| && PrefixesAbove(out, |stack| - 1)
  {
    ChangeDepth(stack, if t.Space? then t.width else 0);
    if !t.Space? {
      WithToken(Change(stack, 0), t, |stack| - 1);
    }
  }

  lemma EofDepth(stack: seq<nat>)
    requires stack != []
    ensures var out := Repeat(Dedent, |stack| - 1) + [Eof];
      Depth(out) == 1 - |stack| && PrefixesAbove(out, |stack| - 1)
  {
    RepeatDepth(|stack| - 1);
    RepeatPrefix(|stack| - 1, |stack| - 1);
    WithToken(Repeat(Dedent, |stack| - 1), Eof, |stack| - 1);
  }

  lemma ChangeDepth(stack: seq<nat>, indent: nat)
    requires WellStacked(stack)
    ensures Depth(Change(stack, indent)) == |StackAfter(stack, indent)| - |stack|
    ensures PrefixesAbove(Change(stack, indent), |stack| - 1)
  {
    StackStaysOk(stack, indent);
    ChangePrefix(stack, indent);
  }

  lemma WithToken(out: seq<Token>, t: Token, base: int)
    requires PrefixesAbove(out, base) && t != Dedent && t != Indent
    ensures Depth(out + [t]) == Depth(out) && PrefixesAbove(out + [t], base)
  {
    DepthAppend(out, [t]);
    SingleDepth(t);
    PrefixesWithToken(out, t, base);
  }

  lemma PlainPrefixes(out: seq<Token>, t: Token, base: nat)
    requires (out == [] || out == [t]) && t != Indent && t != Dedent
    ensures PrefixesAbove(out, base)
  {
    SingleDepth(t);
    forall n | 0 <= n <= |out| ensures base + Depth(out[..n]) >= 0 {
      assert out[..n] == [] || out[..n] == [t];
    }
  }

  lemma SingleDepth(t: Token)
    ensures Depth([t]) == if t == Indent then 1 else if t == Dedent then -1 else 0
  {
    assert [t][..0] == [];
  }

  ghost predicate PrefixesAbove(out: seq<Token>, base: int) {
    forall n :: 0 <= n <= |out| ==> base + Depth(out[..n]) >= 0
  }

  lemma {:induction false} RepeatPrefix(n: nat, base: nat)
    requires n <= base
    ensures PrefixesAbove(Repeat(Dedent, n), base)
  {
    forall k | 0 <= k <= n ensures base + Depth(Repeat(Dedent, n)[..k]) >= 0 {
      assert Repeat(Dedent, n)[..k] == Repeat(Dedent, k);
      RepeatDepth(k);
    }
  }

  lemma ChangePrefix(stack: seq<nat>, indent: nat)
    requires WellStacked(stack)
    ensures PrefixesAbove(Change(stack, indent), |stack| - 1)
  {
    if indent > stack[0] {
      assert [Indent][..0] == [] && [Indent][..1] == [Indent];
      SingleDepth(Indent);
    } else {
      EnclosingOk(stack, indent);
      RepeatPrefix(|stack| - |Enclosing(stack, indent)|, |stack| - 1);
    }
  }

  lemma PrefixesWithToken(out: seq<Token>, t: Token, base: int)
    requires PrefixesAbove(out, base) && t != Dedent
    ensures PrefixesAbove(out + [t], base)
  {
    forall n | 0 <= n <= |out + [t]| ensures base + Depth((out + [t])[..n]) >= 0 {
      if n <= |out| {
        assert (out + [t])[..n] == out[..n];
      } else {
        assert (out + [t])[..n] == out + [t] && out[..|out|] == out;
        DepthAppend(out, [t]);
        SingleDepth(t);
      }
    }
  }

  lemma PrefixesConcat(a: seq<Token>, b: seq<Token>, base: int)
    requires PrefixesAbove(a, base) && PrefixesAbove(b, base + Depth(a))
    ensures PrefixesAbove(a + b, base)
  {
    forall n | 0 <= n <= |a + b| ensures base + Depth((a + b)[..n]) >= 0 {
      if n <= |a| {
        assert (a + b)[..n] == a[..n];
      } else {
        assert (a + b)[..n] == a + b[..n - |a|];
        DepthAppend(a, b[..n - |a|]);
      }
    }
  }

  /** From any state, the output closes every open block by the end of the file and never one more. */
  lemma {:induction false} OutputBalanced(ts: seq<Located>, i: nat, s: State)
    requires Lexed(ts) && i < |ts| && WellStacked(s.stack)
    ensures Depth(Output(ts, i, s)) == -(|s.stack| - 1)
    ensures PrefixesAbove(Output(ts, i, s), |s.stack| - 1)
    decreases |ts| - i
  {
    StepDepth(ts, i, s);
    var (e, s1) := Step(ts, i, s);
    DepthAppend(e, Output(ts, i + 1, s1));
    assert PrefixesAbove(e, |s.stack| - 1);
    if i + 1 < |ts| {
      OutputBalanced(ts, i + 1, s1);
    } else {
      EofClosesAll(ts, i, s);
      assert PrefixesAbove([], |s1.stack| - 1);
    }
    PrefixesConcat(e, Output(ts, i + 1, s1), |s.stack| - 1);
  }

  lemma EofClosesAll(ts: seq<Located>, i: nat, s: State)
    requires i < |ts| && WellStacked(s.stack) && ts[i].0 == Eof
    ensures |Step(ts, i, s).1.stack| == 1
  {
    StackStaysOk(s.stack, 0);
    OnlyBottom(StackAfter(s.stack, 0));
  }

  lemma OnlyBottom(stack: seq<nat>)
    requires WellStacked(stack) && stack[0] == 0
    ensures |stack| == 1
  {
  }

  // ----- nothing else changes -----

  /** The tokens the pass lets through: all but spaces and the newlines that do not end a line. */
  predicate PassesThrough(ts: seq<Located>, i: nat)
    requires i < |ts|
  {
    !ts[i].0.Space? && (ts[i].0.Newline? ==> ts[i].1 == TopLevel && !BeforeOpen(ts, i + 1))
  }

  function Passing(ts: seq<Located>, i: nat): seq<Token>
    requires i <= |ts|
    decreases |ts| - i
  {
    if i == |ts| then [] else (if PassesThrough(ts, i) then [ts[i].0] else []) + Passing(ts, i + 1)
  }

  function WithoutLayout(out: seq<Token>): seq<Token> {
    if out == [] then []
    else (if out[0] == Indent || out[0] == Dedent then [] else [out[0]]) + WithoutLayout(out[1..])
  }

  lemma {:induction false} WithoutLayoutAppend(a: seq<Token>, b: seq<Token>)
    ensures WithoutLayout(a + b) == WithoutLayout(a) + WithoutLayout(b)
    decreases |a|
  {
    if a == [] {
      assert a + b == b;
    } else {
      WithoutLayoutAppend(a[1..], b);
      assert (a + b)[1..] == a[1..] + b;
      var first := if a[0] == Indent || a[0] == Dedent then [] else [a[0]];
      assert first + (WithoutLayout(a[1..]) + WithoutLayout(b)) == first + WithoutLayout(a[1..]) + WithoutLayout(b);
    }
  }

  lemma {:induction false} RepeatIsLayout(n: nat)
    ensures WithoutLayout(Repeat(Dedent, n)) == []
    decreases n
  {
    if n > 0 {
      RepeatIsLayout(n - 1);
      WithoutLayoutAppend(Repeat(Dedent, n - 1), [Dedent]);
      assert [Dedent][1..] == [];
    }
  }

  lemma SingleToken(t: Token)
    requires t != Indent && t != Dedent
    ensures WithoutLayout([t]) == [t]
  {
    assert [t][1..] == [];
  }

  lemma StepPasses(ts: seq<Located>, i: nat, s: State)
    requires i < |ts| && WellStacked(s.stack) && Lexed(ts)
    ensures WithoutLayout(Step(ts, i, s).0) == if PassesThrough(ts, i) then [ts[i].0] else []
  {
    var t := ts[i].0;
    SingleToken(t);
    if ts[i].1 == TopLevel && s.pending && !t.Newline? {
      var w := if t.Space? then t.width else 0;
      assert WithoutLayout(Change(s.stack, w)) == [] by {
        assert [Indent][1..] == [];
        if w <= s.stack[0] {
          RepeatIsLayout(|s.stack| - |Enclosing(s.stack, w)|);
        }
      }
      if !t.Space? {
        WithoutLayoutAppend(Change(s.stack, 0), [t]);
      }
    } else if t.Eof? {
      RepeatIsLayout(|s.stack| - 1);
      WithoutLayoutAppend(Repeat(Dedent, |s.stack| - 1), [Eof]);
    }
  }

  /** Apart from INDENT and DEDENT, the output is the input's passing tokens in their order. */
  lemma {:induction false} OutputPasses(ts: seq<Located>, i: nat, s: State)
    requires Lexed(ts) && i <= |ts| && WellStacked(s.stack)
    ensures WithoutLayout(Output(ts, i, s)) == Passing(ts, i)
    decreases |ts| - i
  {
    if i < |ts| {
      StepKeepsStack(ts, i, s);
      var (e, s1) := Step(ts, i, s);
      StepPasses(ts, i, s);
      OutputPasses(ts, i + 1, s1);
      WithoutLayoutAppend(e, Output(ts, i + 1, s1));
    }
  }

  // ----- the pass -----

  ghost const START := State([0], false)

  method EmitIndentChange(stack: seq<nat>, out: seq<Token>, indent: nat) returns (stack': seq<nat>, out': seq<Token>)
    requires WellStacked(stack)
    ensures stack' == StackAfter(stack, indent) && out' == out + Change(stack, indent)
  {
    stack', out' := stack, out;
    if indent > stack[0] {
      stack', out' := [indent] + stack, out + [Indent];
    } else {
      EnclosingOk(stack, indent);
      while stack'[0] > indent
        invariant WellStacked(stack') && |stack'| <= |stack|
        invariant Enclosing(stack', indent) == Enclosing(stack, indent)
        invariant out' == out + Repeat(Dedent, |stack| - |stack'|)
        decreases |stack'|
      {
        out' := out' + [Dedent];
        stack' := stack'[1..];
      }
    }
  }

  /** At the end of the file every open block is closed. */
  method CloseAll(stack: seq<nat>, out: seq<Token>) returns (stack': seq<nat>, out': seq<Token>)
    requires WellStacked(stack)
    ensures stack' == stack[|stack| - 1..] && out' == out + Repeat(Dedent, |stack| - 1)
  {
    stack', out' := stack, out;
    while |stack'| > 1
      invariant 1 <= |stack'| <= |stack|
      invariant stack' == stack[|stack| - |stack'|..]
      invariant out' == out + Repeat(Dedent, |stack| - |stack'|)
      decreases |stack'|
    {
      stack' := stack'[1..];
      out' := out' + [Dedent];
    }
  }

  lemma OutputUnfolds(ts: seq<Located>, i: nat, s: State, before: seq<Token>, out: seq<Token>, s1: State)
    requires i < |ts| && WellStacked(s.stack) && out == before + Step(ts, i, s).0 && s1 == Step(ts, i, s).1
    ensures WellStacked(s1.stack) && before + Output(ts, i, s) == out + Output(ts, i + 1, s1)
  {
    StepKeepsStack(ts, i, s);
  }

  /** Balanced INDENTs and DEDENTs around exactly the passing tokens. */
  method Layout(ts: seq<Located>) returns (out: seq<Token>)
    ensures out == Output(ts, 0, START)
    ensures Lexed(ts) ==> Depth(out) == 0 && PrefixesAbove(out, 0) && WithoutLayout(out) == Passing(ts, 0)
  {
    var stack, pending, i := [0], false, 0;
    out := [];
    while i < |ts|
      invariant 0 <= i <= |ts| && WellStacked(stack)
      invariant Output(ts, 0, START) == out + Output(ts, i, State(stack, pending))
    {
      ghost var s, before := State(stack, pending), out;
      var (t, ctx) := ts[i];
      if ctx == Inside && (t.Space? || t.Newline?) {
      } else if t.Newline? {
        if BeforeOpen(ts, i + 1) {
          pending := false;
        } else {
          pending := true;
          out := out + [t];
        }
      } else if ctx == TopLevel && pending && t.Space? {
        pending := false;
        stack, out := EmitIndentChange(stack, out, t.width);
      } else if ctx == TopLevel && pending {
        pending := false;
        stack, out := EmitIndentChange(stack, out, 0);
        out := out + [t];
      } else if t.Eof? {
        stack, out := CloseAll(stack, out);
        out := out + [t];
      } else if t.Space? {
      } else {
        pending := false;
        out := out + [t];
      }
      OutputUnfolds(ts, i, s, before, out, State(stack, pending));
      i := i + 1;
    }
    if Lexed(ts) {
      OutputBalanced(ts, 0, START);
      OutputPasses(ts, 0, START);
    }
  }
}
