/** Two pre-compiled chat templates (src/chat_template.hpp). The renderer appends one message at a
    time and recovers what it needs to know about the past from the end of its own output; the
    reference templates see the whole conversation. */
module ChatTemplate {

  datatype Message = Message(role: string, content: string)

  // ---- Whitespace trimming ----

  predicate Ws(c: char) { c == ' ' || c == '\t' || c == '\n' || c == '\r' || c == '\U{0C}' || c == '\U{0B}' }

  /** The C locale's white space: the space and the five control characters from the tab on. */
  lemma WsMeaning(c: char)
    ensures Ws(c) <==> c as int == 32 || 9 <= c as int <= 13
  {}

  predicate AllWs(s: string) { forall i :: 0 <= i < |s| ==> Ws(s[i]) }

  function RTrim(s: string): string { if s != "" && Ws(s[|s| - 1]) then RTrim(s[..|s| - 1]) else s }
  function LTrim(s: string): string { if s != "" && Ws(s[0]) then LTrim(s[1..]) else s }
  function Trim(s: string): string { RTrim(LTrim(s)) }

  predicate Tight(s: string) { s == "" || (!Ws(s[0]) && !Ws(s[|s| - 1])) }

  lemma {:induction false} RTrimMeaning(s: string) returns (b: string)
    ensures s == RTrim(s) + b && AllWs(b)
    ensures RTrim(s) == "" || !Ws(RTrim(s)[|RTrim(s)| - 1])
  {
    b := "";
    if s != "" && Ws(s[|s| - 1]) {
      b := RTrimMeaning(s[..|s| - 1]);
      b := b + [s[|s| - 1]];
    }
  }

  lemma {:induction false} LTrimMeaning(s: string) returns (a: string)
    ensures s == a + LTrim(s) && AllWs(a)
    ensures LTrim(s) == "" || !Ws(LTrim(s)[0])
  {
    a := "";
    if s != "" && Ws(s[0]) {
      a := LTrimMeaning(s[1..]);
      assert s == [s[0]] + s[1..];
      a := [s[0]] + a;
    }
  }

  /** Trimming removes whitespace from both ends and leaves none there. */
  lemma TrimMeaning(s: string) returns (a: string, b: string)
    ensures s == a + Trim(s) + b && AllWs(a) && AllWs(b) && Tight(Trim(s))
  {
    a := LTrimMeaning(s);
    b := RTrimMeaning(LTrim(s));
    assert LTrim(s) == Trim(s) + b;
    assert Trim(s) != "" ==> Trim(s)[0] == LTrim(s)[0];
  }

  lemma {:induction false} RTrimAfter(p: string, s: string)
    requires p != "" && !Ws(p[|p| - 1])
    ensures RTrim(p + s) == p + RTrim(s)
  {
    if s == "" {
      assert p + s == p;
    } else if Ws(s[|s| - 1]) {
      assert (p + s)[..|p + s| - 1] == p + s[..|s| - 1];
      RTrimAfter(p, s[..|s| - 1]);
    }
  }

  /** find_first_not_of over the whitespace set; |s| stands for npos. */
  method FindFirst(s: string) returns (i: nat)
    ensures i <= |s| && s[i..] == LTrim(s)
  {
    i := 0;
    while i < |s| && Ws(s[i])
      invariant i <= |s| && LTrim(s[i..]) == LTrim(s)
    {
      assert s[i..][1..] == s[i + 1..];
      i := i + 1;
    }
  }

  /** One past find_last_not_of over the whitespace set; 0 stands for npos. */
  method FindEnd(s: string) returns (n: nat)
    ensures n <= |s| && s[..n] == RTrim(s)
  {
    n := |s|;
    assert s[..n] == s;
    while n > 0 && Ws(s[n - 1])
      invariant n <= |s| && RTrim(s[..n]) == RTrim(s)
    {
      assert s[..n][..n - 1] == s[..n - 1];
      n := n - 1;
    }
  }

  method TrimView(s: string) returns (t: string)
    ensures t == Trim(s)
  {
    var first := FindFirst(s);
    var end := FindEnd(s[first..]);
    t := s[first..][..end];
  }
}

module Llama2 {
  import opened ChatTemplate
  import opened Common

  const OPEN := "<s>[INST] "
  const SYS := "<<SYS>>\n"
  const CLOSE_SYS := "\n<</SYS>>\n\n"
  const CLOSE := " [/INST]"
  const EOS := " </s>"

  predicate EndsWith(s: string, t: string) { |s| >= |t| && s[|s| - |t|..] == t }

  // ---- The renderer ----

  function Step(out: string, m: Message): string {
    if m.role == "system" && out == "" then OPEN + SYS + m.content + CLOSE_SYS
    else if m.role == "assistant" then out + " " + Trim(m.content) + EOS
    else if EndsWith(out, CLOSE_SYS) then RTrim(out + m.content) + CLOSE
    else out + OPEN + Trim(m.content) + CLOSE
  }

  /** What the renderer has produced after the messages so far. */
  function Rendered(ms: seq<Message>): string {
    if ms == [] then "" else Step(Rendered(ms[..|ms| - 1]), ms[|ms| - 1])
  }

  method FormatMessage(out: string, role: string, content: string) returns (r: string)
    ensures r == Step(out, Message(role, content))
  {
    r := out;
    if role == "system" && r == "" {
      r := r + OPEN + SYS;
      r := r + content;
      r := r + CLOSE_SYS;
    } else if role == "assistant" {
      var t := TrimView(content);
      r := r + " ";
      r := r + t;
      r := r + EOS;
    } else if |r| >= |CLOSE_SYS| && r[|r| - |CLOSE_SYS|..] == CLOSE_SYS {
      r := r + content;
      var n := FindEnd(r);
      r := r[..n];
      r := r + CLOSE;
    } else {
      var t := TrimView(content);
      r := r + OPEN;
      r := r + t;
      r := r + CLOSE;
    }
  }

  method Render(ms: seq<Message>) returns (out: string)
    ensures out == Rendered(ms)
    ensures out == Reference(ms) <==> Plain(ms)
  {
    out := "";
    for i := 0 to |ms|
      invariant out == Rendered(ms[..i])
    {
      assert ms[..i + 1][..i] == ms[..i];
      out := FormatMessage(out, ms[i].role, ms[i].content);
    }
    assert ms[..|ms|] == ms;
    RendersReferenceIff(ms);
  }

  // ---- The reference template ----

  function Turn(role: string, content: string): string {
    if role == "user" then OPEN + Trim(content) + CLOSE
    else if role == "assistant" then " " + Trim(content) + EOS
    else ""
  }

  function Fold(system: Option<string>, content: string): string {
    if system.Some? then SYS + system.value + CLOSE_SYS + content else content
  }

  function Loop(ms: seq<Message>, system: Option<string>): string {
    if ms == [] then "" else Turn(ms[0].role, Fold(system, ms[0].content)) + Loop(ms[1..], None)
  }

  predicate Leads(ms: seq<Message>) { ms != [] && ms[0].role == "system" }

  function Reference(ms: seq<Message>): string {
    if Leads(ms) then Loop(ms[1..], Some(ms[0].content)) else Loop(ms, None)
  }

  predicate AllTurns(ms: seq<Message>) { forall m :: m in ms ==> m.role == "user" || m.role == "assistant" }

  /** An optional leading system message with a user turn right after it, and otherwise nothing
      but user and assistant turns. */
  predicate Plain(ms: seq<Message>) {
    if Leads(ms) then |ms| > 1 && ms[1].role == "user" && AllTurns(ms[2..]) else AllTurns(ms)
  }

  // ---- The state recovered from the output ----

  lemma LastDecides(s: string, t: string)
    requires s != "" && t != "" && s[|s| - 1] != t[|t| - 1]
    ensures !EndsWith(s, t)
  {
    if |s| >= |t| { assert s[|s| - |t|..][|t| - 1] == s[|s| - 1]; }
  }

  /** The two tests on the output say exactly what they are meant to say: it is empty only before
      the first message, and it ends in the system block's close only right after a leading
      system message, whatever the contents are. */
  lemma OutputTellsState(ms: seq<Message>)
    ensures Rendered(ms) == "" <==> ms == []
    ensures EndsWith(Rendered(ms), CLOSE_SYS) <==> Leads(ms) && |ms| == 1
  {
    if ms != [] {
      var n := |ms| - 1;
      var r, out := Rendered(ms), Rendered(ms[..n]);
      if n > 0 { OutputTellsState(ms[..n]); }
      if ms[n].role == "system" && out == "" {
        assert r[|r| - |CLOSE_SYS|..] == CLOSE_SYS;
      } else {
        assert r[|r| - 1] == '>' || r[|r| - 1] == ']';
        LastDecides(r, CLOSE_SYS);
      }
    }
  }

  // ---- The renderer as a concatenation ----

  function Piece(m: Message): string {
    if m.role == "assistant" then " " + Trim(m.content) + EOS else OPEN + Trim(m.content) + CLOSE
  }

  function Pieces(ms: seq<Message>): string { if ms == [] then "" else Piece(ms[0]) + Pieces(ms[1..]) }

  lemma {:induction false} PiecesSnoc(ms: seq<Message>, m: Message)
    ensures Pieces(ms + [m]) == Pieces(ms) + Piece(m)
  {
    if ms == [] {
      assert ms + [m] == [m];
    } else {
      assert (ms + [m])[1..] == ms[1..] + [m];
      PiecesSnoc(ms[1..], m);
    }
  }

  /** How many messages the opening takes. */
  function Opening(ms: seq<Message>): (b: nat)
    ensures b <= |ms|
  {
    if !Leads(ms) then 0 else if |ms| == 1 then 1 else 2
  }

  lemma StepAppends(out: string, m: Message)
    requires !(m.role == "system" && out == "") && (m.role != "assistant" ==> !EndsWith(out, CLOSE_SYS))
    ensures Step(out, m) == out + Piece(m)
  {
    assert out + " " + Trim(m.content) + EOS == out + (" " + Trim(m.content) + EOS);
    assert out + OPEN + Trim(m.content) + CLOSE == out + (OPEN + Trim(m.content) + CLOSE);
  }

  lemma {:induction false} RenderedSplits(ms: seq<Message>)
    ensures Rendered(ms) == Rendered(ms[..Opening(ms)]) + Pieces(ms[Opening(ms)..])
  {
    hide Step, Piece, EndsWith, Rendered, Pieces;
    var b, n := Opening(ms), |ms| - 1;
    if b == |ms| {
      NoPieces();
      assert ms[..b] == ms && ms[b..] == [];
    } else {
      var before, last := ms[..n], ms[n];
      RenderedSplits(before);
      RenderedLast(ms);
      assert before[..b] == ms[..b] && ms[b..] == before[b..] + [last];
      PiecesSnoc(before[b..], last);
      OutputTellsState(before);
      StepAppends(Rendered(before), last);
      Associates(Rendered(ms[..b]), Pieces(before[b..]), Piece(last));
    }
  }

  lemma NoPieces()
    ensures Pieces([]) == "" && forall s: string :: s + Pieces([]) == s
  {}

  lemma RenderedLast(ms: seq<Message>)
    requires ms != []
    ensures Rendered(ms) == Step(Rendered(ms[..|ms| - 1]), ms[|ms| - 1])
  {}

  lemma Associates(a: string, b: string, c: string)
    ensures a + b + c == a + (b + c)
  {}

  lemma {:induction false} PiecesAreTurnsIff(ms: seq<Message>)
    ensures |Pieces(ms)| >= |Loop(ms, None)|
    ensures AllTurns(ms) ==> Pieces(ms) == Loop(ms, None)
    ensures !AllTurns(ms) ==> |Pieces(ms)| > |Loop(ms, None)|
  {
    if ms != [] {
      PiecesAreTurnsIff(ms[1..]);
      assert ms == [ms[0]] + ms[1..];
    }
  }

  /** The folded content is trimmed as a whole: only its right end can go. */
  lemma FoldedTrim(system: string, content: string)
    ensures RTrim(OPEN + SYS + system + CLOSE_SYS + content) == OPEN + Trim(Fold(Some(system), content))
  {
    var rest := "\n" + system + CLOSE_SYS + content;
    var folded := Fold(Some(system), content);
    assert folded == "<<SYS>>" + rest && LTrim(folded) == folded;
    RTrimAfter("<<SYS>>", rest);
    RTrimAfter(OPEN + "<<SYS>>", rest);
    assert OPEN + SYS + system + CLOSE_SYS + content == (OPEN + "<<SYS>>") + rest;
    assert (OPEN + "<<SYS>>") + RTrim(rest) == OPEN + ("<<SYS>>" + RTrim(rest));
  }

  lemma OpeningRendered(ms: seq<Message>)
    requires Leads(ms) && |ms| == 2
    ensures Rendered(ms) == if ms[1].role == "assistant"
                            then OPEN + SYS + ms[0].content + CLOSE_SYS + Piece(ms[1])
                            else OPEN + Trim(Fold(Some(ms[0].content), ms[1].content)) + CLOSE
  {
    hide Piece, EndsWith, Fold;
    FirstRendered(ms[0]);
    assert ms[..1] == [ms[0]];
    OutputTellsState(ms[..1]);
    if ms[1].role == "assistant" {
      StepAppends(Rendered(ms[..1]), ms[1]);
    } else {
      FoldedTrim(ms[0].content, ms[1].content);
    }
  }

  lemma FirstRendered(m: Message)
    requires m.role == "system"
    ensures Rendered([m]) == OPEN + SYS + m.content + CLOSE_SYS
  {}

  lemma {:induction false} TightTrims(s: string)
    requires Tight(s)
    ensures Trim(s) == s
  {}

  lemma SystemLayout(system: string, u: string)
    requires Tight(u) && u != ""
    ensures Rendered([Message("system", system), Message("user", u)]) ==
            "<s>[INST] <<SYS>>\n" + system + "\n<</SYS>>\n\n" + u + " [/INST]"
  {
    hide Rendered, Trim, RTrim, Fold;
    OpeningRendered([Message("system", system), Message("user", u)]);
    FoldedTrim(system, u);
    EndsTight(OPEN + SYS + system + CLOSE_SYS, u);
    assert OPEN + SYS == "<s>[INST] <<SYS>>\n";
  }

  lemma EndsTight(p: string, u: string)
    requires Tight(u) && u != ""
    ensures RTrim(p + u) == p + u
  {
    assert (p + u)[|p + u| - 1] == u[|u| - 1];
  }

  lemma TwoPieces(m: Message, n: Message)
    requires m.role == "assistant" && n.role == "user"
    ensures Pieces([m, n]) == " " + Trim(m.content) + " </s>" + ("<s>[INST] " + Trim(n.content) + " [/INST]")
  {
    hide Trim;
    assert [m, n][1..] == [n] && [n][1..] == [];
    assert Pieces([n]) == Piece(n) + Pieces([]);
    assert Pieces([m, n]) == Piece(m) + Pieces([n]);
    assert Piece(n) + "" == Piece(n);
  }

  /** The text of a conversation whose turns carry no white space at their ends. */
  lemma Layout(system: string, u: string, a: string, v: string)
    requires Tight(u) && Tight(a) && Tight(v) && u != ""
    ensures Rendered([Message("system", system), Message("user", u), Message("assistant", a), Message("user", v)]) ==
            ("<s>[INST] <<SYS>>\n" + system + "\n<</SYS>>\n\n" + u + " [/INST]")
            + (" " + a + " </s>" + ("<s>[INST] " + v + " [/INST]"))
  {
    hide Rendered, Trim, Pieces;
    var m0, m1, m2, m3 := Message("system", system), Message("user", u), Message("assistant", a), Message("user", v);
    var ms := [m0, m1, m2, m3];
    RenderedSplits(ms);
    assert ms[..2] == [m0, m1] && ms[2..] == [m2, m3];
    SystemLayout(system, u);
    TwoPieces(m2, m3);
    TightTrims(a);
    TightTrims(v);
  }

  lemma NothingOpens(ms: seq<Message>)
    requires Opening(ms) == 0
    ensures Rendered(ms) == Reference(ms) <==> Plain(ms)
  {
    hide Step, Piece, Turn, Loop;
    RenderedSplits(ms);
    PiecesAreTurnsIff(ms);
    assert ms[0..] == ms && ms[..0] == [];
  }

  lemma ReferenceLeads(ms: seq<Message>)
    requires Leads(ms) && |ms| > 1
    ensures Reference(ms) == Turn(ms[1].role, Fold(Some(ms[0].content), ms[1].content)) + Loop(ms[2..], None)
  {
    hide Turn, Fold;
    assert ms[1..][1..] == ms[2..] && ms[1..][0] == ms[1];
  }

  /** What the opening of two messages looks like beside the reference's. */
  lemma OpeningsCompared(ms: seq<Message>)
    requires Leads(ms) && |ms| > 1
    ensures var head, turn := Rendered(ms[..2]), Turn(ms[1].role, Fold(Some(ms[0].content), ms[1].content));
            && (ms[1].role == "user" ==> head == turn)
            && (ms[1].role == "assistant" ==> head != "" && turn != "" && head[0] != turn[0])
            && (ms[1].role != "user" && ms[1].role != "assistant" ==> head != "" && turn == "")
  {
    hide Rendered, Trim, Fold;
    OpeningRendered(ms[..2]);
  }

  lemma HeadsDecide(head: string, turn: string, a: string, b: string)
    ensures head == turn ==> (head + a == turn + b <==> a == b)
    ensures head != "" && turn != "" && head[0] != turn[0] ==> head + a != turn + b
    ensures head != "" && turn == "" && |a| >= |b| ==> head + a != turn + b
  {
    if head == turn && head + a == turn + b { assert a == (head + a)[|head|..] && b == (turn + b)[|head|..]; }
    if head != "" && turn != "" { assert (head + a)[0] == head[0] && (turn + b)[0] == turn[0]; }
    assert |head + a| == |head| + |a| && |turn + b| == |turn| + |b|;
  }

  lemma SystemThenTurn(ms: seq<Message>)
    requires Opening(ms) == 2
    ensures Rendered(ms) == Reference(ms) <==> Plain(ms)
  {
    hide Rendered, Pieces, Loop, Reference, Turn, Fold;
    RenderedSplits(ms);
    PiecesAreTurnsIff(ms[2..]);
    ReferenceLeads(ms);
    OpeningsCompared(ms);
    HeadsDecide(Rendered(ms[..2]), Turn(ms[1].role, Fold(Some(ms[0].content), ms[1].content)),
                Pieces(ms[2..]), Loop(ms[2..], None));
  }

  /** Rendering message by message gives the reference template's text exactly for plain
      conversations; in every other one the texts differ. */
  lemma RendersReferenceIff(ms: seq<Message>)
    ensures Rendered(ms) == Reference(ms) <==> Plain(ms)
  {
    hide Rendered, Loop;
    if Opening(ms) == 0 {
      NothingOpens(ms);
    } else if Opening(ms) == 1 {
      OutputTellsState(ms);
      SystemAlone(ms);
    } else {
      SystemThenTurn(ms);
    }
  }

  lemma SystemAlone(ms: seq<Message>)
    requires Leads(ms) && |ms| == 1
    ensures Reference(ms) == ""
  {
    assert ms[1..] == [];
  }
}

module Mistral {
  import opened ChatTemplate

  const INST := "[INST] "
  const CLOSE := " [/INST]"
  const EOS := "</s>"

  // ---- The renderer ----

  /** The renderer's test for an open instruction block. */
  predicate EndsOpen(out: string) { |out| >= 2 && out[|out| - 1] == '\n' && out[|out| - 2] == '\n' }

  function Step(out: string, m: Message, isFirst: bool): string {
    if m.role == "system" then out + (if isFirst then "<s>" else "") + INST + m.content + "\n\n"
    else if m.role == "user" then
      (if EndsOpen(out) then out + m.content + CLOSE
       else if isFirst then out + "<s>[INST] " + m.content + CLOSE
       else out + INST + m.content + CLOSE)
    else out + m.content + EOS
  }

  function Rendered(ms: seq<Message>): string {
    if ms == [] then "" else Step(Rendered(ms[..|ms| - 1]), ms[|ms| - 1], |ms| == 1)
  }

  method FormatMessage(out: string, role: string, content: string, isFirst: bool) returns (r: string)
    ensures r == Step(out, Message(role, content), isFirst)
  {
    r := out;
    if role == "system" {
      if isFirst { r := r + "<s>"; }
      r := r + INST;
      r := r + content;
      r := r + "\n\n";
    } else if role == "user" {
      var inside := |r| >= 2 && r[|r| - 1] == '\n' && r[|r| - 2] == '\n';
      if inside {
        r := r + content;
      } else if isFirst {
        r := r + "<s>[INST] ";
        r := r + content;
      } else {
        r := r + INST;
        r := r + content;
      }
      r := r + CLOSE;
    } else {
      r := r + content;
      r := r + EOS;
    }
  }

  method Render(ms: seq<Message>) returns (out: string)
    ensures out == Reference(ms)
  {
    out := "";
    for i := 0 to |ms|
      invariant out == Rendered(ms[..i])
    {
      assert ms[..i + 1][..i] == ms[..i];
      out := FormatMessage(out, ms[i].role, ms[i].content, i == 0);
    }
    assert ms[..|ms|] == ms;
    RendersReference(ms);
  }

  // ---- The reference: blocks of the whole conversation, by looking ahead ----

  predicate Opens(m: Message) { m.role == "system" || m.role == "user" }

  function Reference(ms: seq<Message>): string { (if ms != [] && Opens(ms[0]) then "<s>" else "") + Blocks(ms) }

  function Blocks(ms: seq<Message>): string {
    if ms == [] then ""
    else if ms[0].role == "system" && |ms| > 1 && ms[1].role == "user" then
      INST + ms[0].content + "\n\n" + ms[1].content + CLOSE + Blocks(ms[2..])
    else if ms[0].role == "system" then INST + ms[0].content + "\n\n" + Blocks(ms[1..])
    else if ms[0].role == "user" then INST + ms[0].content + CLOSE + Blocks(ms[1..])
    else ms[0].content + EOS + Blocks(ms[1..])
  }

  // ---- The state recovered from the output ----

  /** The block is open exactly when the last message was a system one, whatever the contents. */
  lemma OutputTellsState(ms: seq<Message>)
    ensures EndsOpen(Rendered(ms)) <==> ms != [] && ms[|ms| - 1].role == "system"
  {}

  // ---- The renderer with that state passed along ----

  function Piece(open: bool, isFirst: bool, m: Message): string {
    if m.role == "system" then (if isFirst then "<s>" else "") + INST + m.content + "\n\n"
    else if m.role == "user" then
      (if open then "" else if isFirst then "<s>[INST] " else INST) + m.content + CLOSE
    else m.content + EOS
  }

  function Pieces(open: bool, isFirst: bool, ms: seq<Message>): string
    decreases |ms|
  {
    if ms == [] then "" else Piece(open, isFirst, ms[0]) + Pieces(ms[0].role == "system", false, ms[1..])
  }

  predicate OpenAfter(open: bool, ms: seq<Message>) { if ms == [] then open else ms[|ms| - 1].role == "system" }

  lemma {:induction false} PiecesSnoc(open: bool, isFirst: bool, ms: seq<Message>, m: Message)
    ensures Pieces(open, isFirst, ms + [m]) ==
            Pieces(open, isFirst, ms) + Piece(OpenAfter(open, ms), isFirst && ms == [], m)
    decreases |ms|
  {
    hide Piece;
    if ms == [] {
      assert ms + [m] == [m];
    } else {
      assert (ms + [m])[1..] == ms[1..] + [m];
      PiecesSnoc(ms[0].role == "system", false, ms[1..], m);
    }
  }

  lemma StepAppends(out: string, m: Message, isFirst: bool)
    ensures Step(out, m, isFirst) == out + Piece(EndsOpen(out), isFirst, m)
  {
    hide EndsOpen;
    if m.role == "system" {
      Join(out, if isFirst then "<s>" else "", INST, m.content, "\n\n");
    } else if m.role == "user" {
      Join(out, if EndsOpen(out) then "" else if isFirst then "<s>[INST] " else INST, m.content, CLOSE, "");
      assert out + "" == out;
    }
  }

  lemma Join(out: string, a: string, b: string, c: string, d: string)
    ensures out + a + b + c + d == out + (a + b + c + d)
    ensures out + a + b + c == out + (a + b + c)
  {}

  lemma {:induction false} RenderedIsPieces(ms: seq<Message>)
    ensures Rendered(ms) == Pieces(false, true, ms)
  {
    hide Step, Piece, EndsOpen;
    if ms != [] {
      var n := |ms| - 1;
      RenderedIsPieces(ms[..n]);
      OutputTellsState(ms[..n]);
      StepAppends(Rendered(ms[..n]), ms[n], n == 0);
      PiecesSnoc(false, true, ms[..n], ms[n]);
      assert ms == ms[..n] + [ms[n]];
    }
  }

  /** The blocks of the rest of a conversation, after a system message. */
  function Continued(ms: seq<Message>): string {
    if ms != [] && ms[0].role == "user" then ms[0].content + CLOSE + Blocks(ms[1..]) else Blocks(ms)
  }

  lemma SystemBlock(ms: seq<Message>)
    requires ms != [] && ms[0].role == "system"
    ensures Blocks(ms) == Piece(false, false, ms[0]) + Continued(ms[1..])
  {
    hide Blocks;
    BlocksFirst(ms);
    var open := INST + ms[0].content + "\n\n";
    assert Piece(false, false, ms[0]) == open;
    if |ms| > 1 && ms[1].role == "user" {
      assert ms[1..][0] == ms[1] && ms[1..][1..] == ms[2..];
      Join(open, ms[1].content, CLOSE, Blocks(ms[2..]), "");
    }
  }

  lemma BlocksFirst(ms: seq<Message>)
    requires ms != [] && ms[0].role == "system"
    ensures Blocks(ms) == INST + ms[0].content + "\n\n"
                          + (if |ms| > 1 && ms[1].role == "user" then ms[1].content + CLOSE + Blocks(ms[2..])
                             else Blocks(ms[1..]))
  {
    if |ms| > 1 && ms[1].role == "user" {
      Join(INST + ms[0].content + "\n\n", ms[1].content, CLOSE, Blocks(ms[2..]), "");
    }
  }

  lemma TurnBlock(ms: seq<Message>)
    requires ms != [] && ms[0].role != "system"
    ensures Blocks(ms) == Piece(false, false, ms[0]) + Blocks(ms[1..])
    ensures Continued(ms) == Piece(true, false, ms[0]) + Blocks(ms[1..])
  {}

  lemma {:induction false} PiecesAreBlocks(ms: seq<Message>)
    ensures Pieces(false, false, ms) == Blocks(ms) && Pieces(true, false, ms) == Continued(ms)
  {
    hide Blocks;
    if ms == [] {
      NoBlocks();
    } else {
      PiecesAreBlocks(ms[1..]);
      if ms[0].role == "system" { SystemBlock(ms); } else { TurnBlock(ms); }
    }
  }

  lemma NoBlocks()
    ensures Blocks([]) == ""
  {}

  lemma FirstPiece(m: Message)
    ensures Piece(false, true, m) == (if Opens(m) then "<s>" else "") + Piece(false, false, m)
  {
    assert "<s>[INST] " == "<s>" + INST;
  }

  /** The text of a conversation with every kind of turn. */
  lemma Layout(system: string, u: string, a: string, v: string)
    ensures Rendered([Message("system", system), Message("user", u), Message("assistant", a), Message("user", v)]) ==
            "<s>[INST] " + system + "\n\n" + u + " [/INST]" + (a + "</s>" + ("[INST] " + v + " [/INST]"))
  {
    hide Rendered;
    var m0, m1, m2, m3 := Message("system", system), Message("user", u), Message("assistant", a), Message("user", v);
    var ms := [m0, m1, m2, m3];
    RendersReference(ms);
    assert ms[2..] == [m2, m3] && [m2, m3][1..] == [m3] && [m3][1..] == [];
    assert Blocks([m3]) == INST + v + CLOSE + "" == INST + v + CLOSE;
    assert Blocks(ms) == INST + system + "\n\n" + u + CLOSE + Blocks([m2, m3]);
  }

  /** Rendering message by message is the look-ahead reference, for every list of messages. */
  lemma RendersReference(ms: seq<Message>)
    ensures Rendered(ms) == Reference(ms)
  {
    hide Piece, Blocks, Rendered;
    RenderedIsPieces(ms);
    PiecesAreBlocks(ms);
    if ms != [] { FirstPiece(ms[0]); } else { NoBlocks(); }
  }
}
