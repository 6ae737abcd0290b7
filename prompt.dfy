/** The prompt assembled by `Query` (03/main.go): the selected chunks joined
    by a blank line, placed in a fixed template together with the question,
    followed by an instruction to answer only from the context and the cue
    where the model's answer begins. */
module Prompt {
  import opened GoStrings

  /** The template is a Go raw string literal, so each `\n` in the next three
      constants is a backslash followed by the letter n, not a line break. */
  const Header: string := "Human: Bas\U{00E1}ndote en el siguiente contexto, responde la pregunta de manera precisa y detallada. \\n\\n CONTEXTO: "
  const BeforeQuestion: string := " \\n\\n PREGUNTA: "
  const AfterQuestion: string := " \\n\\n RESPUESTA:"

  /** Appended after the template (an interpreted string: real line breaks). */
  const Instruction: string := "\n\n Responde \U{00FA}nicamente bas\U{00E1}ndote en la informaci\U{00F3}n proporcionada en el contexto. Si la informaci\U{00F3}n no est\U{00E1} disponible en el contexto, indica que no puedes responder bas\U{00E1}ndote en el documento proporcionado."

  /** Appended to the prompt when the request is built. */
  const AssistantCue: string := "\n\nAssistant:"

  const ChunkSeparator: string := "\n\n"

  predicate HasSuffix(s: string, suffix: string) {
    |suffix| <= |s| && s[|s| - |suffix|..] == suffix
  }

  /** strings.Join(relevantChunks, "\n\n"). */
  function Context(relevant: seq<string>): (c: string)
    ensures |relevant| == 1 ==> c == relevant[0]
  {
    Join(relevant, ChunkSeparator)
  }

  /** The prompt text of the request sent to the model. */
  function BuildPrompt(relevant: seq<string>, question: string): (p: string)
    ensures HasPrefix(p, Header)
    ensures HasSuffix(p, Instruction + AssistantCue) && HasSuffix(p, AssistantCue)
  {
    PiecesFrame(Header, Context(relevant), BeforeQuestion, question, AfterQuestion, Instruction, AssistantCue);
    Header + Context(relevant) + BeforeQuestion + question + AfterQuestion + Instruction + AssistantCue
  }

  /** Seven pieces joined start with the first and end with the last two. */
  lemma PiecesFrame(a: string, b: string, c: string, d: string, e: string, f: string, g: string)
    ensures var s := a + b + c + d + e + f + g;
      HasPrefix(s, a) && HasSuffix(s, f + g) && HasSuffix(s, g)
  {
    var s := a + b + c + d + e + f + g;
    assert s == a + (b + c + d + e + f + g);
    assert s == (a + b + c + d + e) + (f + g);
    assert s == (a + b + c + d + e + f) + g;
  }

  /** The template's line breaks are literal: its pieces hold backslash-n
      pairs and no newline character. */
  lemma TemplateBreaksAreLiteral()
    ensures Header[95..97] == "\\n" && BeforeQuestion[1..3] == "\\n" && AfterQuestion[1..3] == "\\n"
    ensures '\n' !in BeforeQuestion && '\n' !in AfterQuestion
  {
    assert AfterQuestion[1] == '\\' && AfterQuestion[2] == 'n';
  }

  /** Where the context block and the question sit in the prompt: each can be
      read back from a fixed offset. */
  lemma PromptLayout(relevant: seq<string>, question: string)
    ensures var p := BuildPrompt(relevant, question);
      var c := Context(relevant);
      var q0 := |Header| + |c| + |BeforeQuestion|;
      |p| == q0 + |question| + |AfterQuestion| + |Instruction| + |AssistantCue| &&
      p[|Header|..|Header| + |c|] == c &&
      p[q0..q0 + |question|] == question
  {
    PiecesLayout(Header, Context(relevant), BeforeQuestion, question, AfterQuestion, Instruction, AssistantCue);
  }

  /** The second and fourth of seven joined pieces sit at fixed offsets. */
  lemma PiecesLayout(a: string, b: string, c: string, d: string, e: string, f: string, g: string)
    ensures var s := a + b + c + d + e + f + g;
      var d0 := |a| + |b| + |c|;
      |s| == d0 + |d| + |e| + |f| + |g| &&
      s[|a|..|a| + |b|] == b && s[d0..d0 + |d|] == d
  {
    var s := a + b + c + d + e + f + g;
    var tail := e + f + g;
    assert s == a + b + c + d + tail;
    assert (a + b + c + d + tail)[|a|..|a| + |b|] == b;
    assert (a + b + c + d + tail)[|a| + |b| + |c|..|a| + |b| + |c| + |d|] == d;
  }

  /** Every part of a join occurs in it. */
  lemma {:induction false} JoinContainsParts(parts: seq<string>, sep: string, i: nat)
    requires i < |parts|
    ensures Contains(Join(parts, sep), parts[i])
    decreases |parts|
  {
    var j := Join(parts, sep);
    if |parts| == 1 {
      assert OccursAt(j, parts[0], 0);
    } else if i == 0 {
      assert j == parts[0] + (sep + Join(parts[1..], sep));
      assert OccursAt(j, parts[0], 0);
    } else {
      JoinContainsParts(parts[1..], sep, i - 1);
      var rest := Join(parts[1..], sep);
      var k :| OccursAt(rest, parts[i], k);
      var off := |parts[0]| + |sep|;
      assert j == (parts[0] + sep) + rest;
      assert j[off + k..off + k + |parts[i]|] == rest[k..k + |parts[i]|];
      assert OccursAt(j, parts[i], off + k);
    }
  }

  /** An occurrence inside the middle piece is an occurrence in the whole. */
  lemma ContainsInMiddle(pre: string, mid: string, post: string, sub: string)
    requires Contains(mid, sub)
    ensures Contains(pre + mid + post, sub)
  {
    var k :| OccursAt(mid, sub, k);
    var s := pre + mid + post;
    assert s[|pre| + k..|pre| + k + |sub|] == mid[k..k + |sub|];
    assert OccursAt(s, sub, |pre| + k);
  }

  /** An occurrence in the second or fourth of seven pieces is an occurrence
      in their concatenation. */
  lemma ContainsInPieces(a: string, b: string, c: string, d: string, e: string, f: string, g: string, sub: string)
    requires Contains(b, sub) || Contains(d, sub)
    ensures Contains(a + b + c + d + e + f + g, sub)
  {
    assert a + b + c + d + e + f + g == a + b + (c + d + e + f + g);
    assert a + b + c + d + e + f + g == (a + b + c) + d + (e + f + g);
    if Contains(b, sub) {
      ContainsInMiddle(a, b, c + d + e + f + g, sub);
    } else {
      ContainsInMiddle(a + b + c, d, e + f + g, sub);
    }
  }

  /** Every selected chunk, and the question, appear verbatim in the prompt. */
  lemma PromptContainsChunksAndQuestion(relevant: seq<string>, question: string, i: nat)
    requires i < |relevant|
    ensures Contains(BuildPrompt(relevant, question), relevant[i])
    ensures Contains(BuildPrompt(relevant, question), question)
  {
    var c := Context(relevant);
    JoinContainsParts(relevant, ChunkSeparator, i);
    ContainsInPieces(Header, c, BeforeQuestion, question, AfterQuestion, Instruction, AssistantCue, relevant[i]);
    assert OccursAt(question, question, 0);
    ContainsInPieces(Header, c, BeforeQuestion, question, AfterQuestion, Instruction, AssistantCue, question);
  }
}
