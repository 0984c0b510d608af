/** Model of llm.go: the generator the Go worker calls for every job.

    The generator holds the path of a local model file (empty when none was
    found) and turns a topic into an article by filling one of two templates
    with fmt.Sprintf. The directory scan that finds the model file is I/O and is
    not modelled; its file-name test is (IsModelFile).
 */
module Llm {

  // ---------------------------------------------------------------- strings

  predicate StartsWith(s: string, prefix: string) {
    |prefix| <= |s| && s[..|prefix|] == prefix
  }

  predicate EndsWith(s: string, suffix: string) {
    |suffix| <= |s| && s[|s| - |suffix|..] == suffix
  }

  /** part occurs in s at offset i. */
  predicate OccursAt(s: string, part: string, i: int) {
    0 <= i <= |s| - |part| && s[i..i + |part|] == part
  }

  predicate Contains(s: string, part: string) {
    exists i :: 0 <= i <= |s| - |part| && OccursAt(s, part, i)
  }

  lemma EndsWithConcat(a: string, b: string)
    ensures EndsWith(a + b, b)
  {
    assert (a + b)[|a + b| - |b|..] == b;
  }

  lemma EndsWithTransitive(s: string, t: string, u: string)
    requires EndsWith(s, t) && EndsWith(t, u)
    ensures EndsWith(s, u)
  {
    assert s[|s| - |u|..] == s[|s| - |t|..][|t| - |u|..];
  }

  lemma StartsWithContains(s: string, head: string, part: string)
    requires StartsWith(s, head + part)
    ensures Contains(s, part)
  {
    assert s[|head|..|head| + |part|] == (head + part)[|head|..];
    assert OccursAt(s, part, |head|);
  }

  // ------------------------------------------------------- fmt.Sprintf("%s")

  /** What fmt prints for a `%s` verb that has no operand left. */
  const Missing: string := "%!s(MISSING)"

  /** A template is the text between its `%s` verbs; the verbs' values go in between. */
  function Interleave(pieces: seq<string>, values: seq<string>): string
    requires |pieces| == |values| + 1
    decreases |values|
  {
    if |values| == 0 then pieces[0]
    else pieces[0] + values[0] + Interleave(pieces[1..], values[1..])
  }

  /** The values fmt gives to `verbs` verbs from `args`: the operands in order,
      then Missing for every verb left without one. */
  function Operands(args: seq<string>, verbs: nat): seq<string>
    requires |args| <= verbs
  {
    args + seq(verbs - |args|, _ => Missing)
  }

  /** fmt.Sprintf on a template whose only verbs are `%s` and which gets no
      more operands than it has verbs. */
  function Sprintf(template: seq<string>, args: seq<string>): string
    requires 1 <= |template| && |args| <= |template| - 1
  {
    Interleave(template, Operands(args, |template| - 1))
  }

  lemma InterleaveFirst(pieces: seq<string>, values: seq<string>)
    requires |pieces| == |values| + 1 && 1 <= |values|
    ensures StartsWith(Interleave(pieces, values), pieces[0] + values[0] + pieces[1])
  {
    var rest := Interleave(pieces[1..], values[1..]);
    assert StartsWith(rest, pieces[1]);
  }

  /** The last verb's value and the last piece close the output. */
  lemma {:induction false} InterleaveLast(pieces: seq<string>, values: seq<string>)
    requires |pieces| == |values| + 1 && 1 <= |values|
    ensures Interleave(pieces, values)
         == Interleave(pieces[..|pieces| - 1], values[..|values| - 1]) + values[|values| - 1] + pieces[|pieces| - 1]
  {
    if |values| > 1 {
      InterleaveLast(pieces[1..], values[1..]);
      assert pieces[1..][..|pieces| - 2] == pieces[..|pieces| - 1][1..];
      assert values[1..][..|values| - 2] == values[..|values| - 1][1..];
    }
  }

  lemma InterleaveEnds(pieces: seq<string>, values: seq<string>)
    requires |pieces| == |values| + 1 && 1 <= |values|
    ensures EndsWith(Interleave(pieces, values), values[|values| - 1] + pieces[|pieces| - 1])
  {
    InterleaveLast(pieces, values);
    EndsWithConcat(Interleave(pieces[..|pieces| - 1], values[..|values| - 1]), values[|values| - 1] + pieces[|pieces| - 1]);
  }

  // -------------------------------------------------------------- templates

  const OutlineHead: string := "## OUTLINE\n"
  const IntroBullet: string := "- Introduction to "
  const FallbackSignature: string := "*Generated using fallback content generation*"

  /** The enhanced template: twelve pieces of text around its eleven `%s` verbs. */
  const EnhancedTemplate: seq<string> := [
    OutlineHead + IntroBullet,
    "\n- Core concepts and fundamentals  " + "\n- Practical applications and use cases\n- Benefits and advantages\n- Implementation strategies\n- Future outlook and trends\n- Conclusion and key takeaways\n\n## ARTICLE\n\n# Understanding ",
    ": A Comprehensive Guide\n\n",
    " represents a significant area of interest in today's rapidly evolving landscape. This comprehensive guide explores the essential aspects, practical applications, and future implications of ",
    ".\n\n## Core Concepts and Fundamentals\n\nAt its foundation, ",
    " encompasses several key principles that form the backbone of understanding. These fundamental concepts provide the necessary framework for deeper exploration and practical application.\n\nThe primary elements include:\n- Theoretical foundations and underlying principles\n- Historical context and evolution\n- Current state and recent developments\n- Key terminology and definitions\n\n## Practical Applications and Use Cases\n\n",
    " finds application across numerous domains and industries. Real-world implementations demonstrate its versatility and effectiveness in solving complex challenges.\n\nCommon applications include:\n- Industry-specific solutions and implementations\n- Cross-functional integration opportunities\n- Scalable deployment strategies\n- Performance optimization techniques\n\n## Benefits and Advantages\n\nThe adoption of ",
    " brings numerous advantages:\n\n**Efficiency Improvements**: Streamlined processes and reduced complexity lead to significant efficiency gains.\n\n**Cost Effectiveness**: Strategic implementation often results in substantial cost savings and resource optimization.\n\n**Scalability**: Solutions built around ",
    " principles typically offer excellent scalability characteristics.\n\n**Innovation Potential**: Opens new avenues for creative problem-solving and innovative approaches.\n\n## Implementation Strategies\n\nSuccessful implementation requires careful planning and strategic approach:\n\n1. **Assessment Phase**: Evaluate current state and identify opportunities\n2. **Planning Phase**: Develop comprehensive implementation roadmap\n3. **Execution Phase**: Deploy solutions with proper monitoring\n4. **Optimization Phase**: Continuous improvement and refinement\n\n## Future Outlook and Trends\n\nThe future of ",
    " looks promising with several emerging trends:\n- Technological advancements driving new possibilities\n- Increased adoption across various sectors\n- Integration with complementary technologies\n- Evolution of best practices and methodologies\n\n## Conclusion and Key Takeaways\n\n",
    " represents a valuable domain with significant potential for impact and growth. Understanding its core principles, applications, and implementation strategies is crucial for leveraging its full potential.\n\nKey takeaways include:\n- Comprehensive understanding enables better decision-making\n- Practical application requires strategic planning\n- Continuous learning and adaptation are essential\n- Future opportunities are abundant for early adopters\n\n*Generated using enhanced content generation with local model: ",
    "*"
  ]

  /** The fallback template: eleven pieces of text around its ten `%s` verbs. */
  const FallbackTemplate: seq<string> := [
    OutlineHead + IntroBullet,
    "\n- Key aspects and importance" + "\n- Practical applications\n- Benefits and considerations\n- Conclusion and next steps\n\n## ARTICLE\n\n# Understanding ",
    "\n\n",
    " is an important subject that deserves our attention and understanding. In today's rapidly evolving world, having knowledge about ",
    " can provide significant advantages and insights.\n\n## Key Aspects\n\nWhen exploring ",
    ", several key aspects emerge that are worth considering. These elements form the foundation of our understanding and help us appreciate the complexity and nuance involved.\n\n## Practical Applications\n\nThe practical applications of ",
    " are numerous and varied. From everyday situations to professional environments, the principles and concepts related to ",
    " can be applied in meaningful ways.\n\n## Benefits and Considerations\n\nUnderstanding ",
    " brings several benefits, including improved decision-making, better problem-solving capabilities, and enhanced perspective on related matters. However, it's also important to consider potential challenges and limitations.\n\n## Conclusion\n\nIn conclusion, ",
    " represents a valuable area of knowledge that can enrich our understanding and provide practical benefits. By continuing to explore and learn about ",
    FallbackClosing + FallbackSignature
  ]

  const FallbackClosing: string := ", we can develop a more comprehensive and nuanced perspective.\n\n"

  function Repeat(s: string, n: nat): seq<string> {
    seq(n, _ => s)
  }

  lemma PrefixOfPrefix(s: string, a: string, b: string)
    requires StartsWith(s, a + b)
    ensures StartsWith(s, a)
  {
    assert s[..|a|] == (a + b)[..|a|];
  }

  /** Sprintf output opens with the first piece, the first operand and the second piece. */
  lemma SprintfOpens(template: seq<string>, args: seq<string>)
    requires 2 <= |template| && 1 <= |args| <= |template| - 1
    ensures StartsWith(Sprintf(template, args), template[0] + args[0] + template[1])
    ensures StartsWith(Sprintf(template, args), template[0] + args[0])
  {
    InterleaveFirst(template, Operands(args, |template| - 1));
    PrefixOfPrefix(Sprintf(template, args), template[0] + args[0], template[1]);
  }

  /** Sprintf output closes with the last verb's value and the last piece; that
      value is the last operand only when every verb has one. */
  lemma SprintfCloses(template: seq<string>, args: seq<string>)
    requires 2 <= |template| && |args| <= |template| - 1
    ensures EndsWith(Sprintf(template, args),
                     (if |args| == |template| - 1 then args[|args| - 1] else Missing) + template[|template| - 1])
  {
    InterleaveEnds(template, Operands(args, |template| - 1));
  }

  lemma OpensWithTopic(r: string, topic: string)
    requires StartsWith(r, OutlineHead + IntroBullet + topic)
    ensures Contains(r, IntroBullet + topic) && |r| > 0
  {
    assert OutlineHead + IntroBullet + topic == OutlineHead + (IntroBullet + topic);
    StartsWithContains(r, OutlineHead, IntroBullet + topic);
  }

  // ------------------------------------------------ the templates as written

  /** enhancedGeneration as written: nine topic operands and the model's base
      name for the template's eleven verbs, so the tenth verb gets the model name
      and the eleventh none. */
  function EnhancedGenerationAsWritten(topic: string, modelPath: string): (r: string)
    ensures StartsWith(r, OutlineHead + IntroBullet + topic + EnhancedTemplate[1])
    ensures StartsWith(r, OutlineHead + IntroBullet + topic)
    ensures Contains(r, IntroBullet + topic) && |r| > 0
    ensures EndsWith(r, Missing + "*")
  {
    var args := Repeat(topic, 9) + [Base(modelPath)];
    SprintfOpens(EnhancedTemplate, args);
    SprintfCloses(EnhancedTemplate, args);
    OpensWithTopic(Sprintf(EnhancedTemplate, args), topic);
    Sprintf(EnhancedTemplate, args)
  }

  /** fallbackGeneration as written: nine topic operands for ten verbs. */
  function FallbackGenerationAsWritten(topic: string): (r: string)
    ensures StartsWith(r, OutlineHead + IntroBullet + topic + FallbackTemplate[1])
    ensures StartsWith(r, OutlineHead + IntroBullet + topic)
    ensures Contains(r, IntroBullet + topic) && |r| > 0
    ensures EndsWith(r, Missing + FallbackTemplate[10])
    ensures EndsWith(r, FallbackSignature)
  {
    var args := Repeat(topic, 9);
    var r := Sprintf(FallbackTemplate, args);
    SprintfOpens(FallbackTemplate, args);
    SprintfCloses(FallbackTemplate, args);
    OpensWithTopic(r, topic);
    assert Missing + FallbackTemplate[10] == (Missing + FallbackClosing) + FallbackSignature;
    EndsWithConcat(Missing + FallbackClosing, FallbackSignature);
    EndsWithTransitive(r, Missing + FallbackTemplate[10], FallbackSignature);
    r
  }

  /** The model name never closes the enhanced output as written (unless the
      name itself ends like Missing does). */
  lemma EnhancedAsWrittenDropsModelName(topic: string, modelPath: string)
    requires Base(modelPath)[|Base(modelPath)| - 1] != ')'
    ensures !EndsWith(EnhancedGenerationAsWritten(topic, modelPath), Base(modelPath) + "*")
  {
    var r := EnhancedGenerationAsWritten(topic, modelPath);
    var b := Base(modelPath);
    assert r[|r| - 2] == (Missing + "*")[|Missing| - 1] == ')';
  }

  /** The fallback output as written does not name the topic in its last sentence. */
  lemma FallbackAsWrittenDropsLastTopic(topic: string)
    requires topic != "" && topic[|topic| - 1] != ')'
    ensures !EndsWith(FallbackGenerationAsWritten(topic), topic + FallbackTemplate[10])
  {
    var r := FallbackGenerationAsWritten(topic);
    var tail := FallbackTemplate[10];
    assert r[|r| - |tail| - 1] == (Missing + tail)[|Missing| - 1] == ')';
  }

  /** A concrete input: a model file found as models/llama.gguf. */
  lemma EnhancedAsWrittenExample()
    ensures Base("models/llama.gguf") == "llama.gguf"
    ensures !EndsWith(EnhancedGenerationAsWritten("rust ownership", "models/llama.gguf"), "llama.gguf*")
  {
    assert "models/llama.gguf" == "models" + "/" + "llama.gguf";
    BaseOfFileName("models", "llama.gguf");
    EnhancedAsWrittenDropsModelName("rust ownership", "models/llama.gguf");
  }

  /** A concrete input: the topic "rust ownership" without a model file. */
  lemma FallbackAsWrittenExample()
    ensures !EndsWith(FallbackGenerationAsWritten("rust ownership"), "rust ownership" + FallbackTemplate[10])
    ensures EndsWith(FallbackGenerationAsWritten("rust ownership"), Missing + FallbackTemplate[10])
  {
    FallbackAsWrittenDropsLastTopic("rust ownership");
  }

  // --------------------------------------------------- the intended templates

  /** enhancedGeneration with the operand list it evidently meant: the topic for
      the first ten verbs and the model's base name for the last. */
  function EnhancedGeneration(topic: string, modelPath: string): (r: string)
    ensures StartsWith(r, OutlineHead + IntroBullet + topic + EnhancedTemplate[1])
    ensures Contains(r, IntroBullet + topic) && |r| > 0
    ensures EndsWith(r, Base(modelPath) + "*")
  {
    var args := Repeat(topic, 10) + [Base(modelPath)];
    var r := Sprintf(EnhancedTemplate, args);
    SprintfOpens(EnhancedTemplate, args);
    SprintfCloses(EnhancedTemplate, args);
    OpensWithTopic(r, topic);
    r
  }

  /** fallbackGeneration with the topic for all ten verbs. */
  function FallbackGeneration(topic: string): (r: string)
    ensures StartsWith(r, OutlineHead + IntroBullet + topic + FallbackTemplate[1])
    ensures Contains(r, IntroBullet + topic) && |r| > 0
    ensures EndsWith(r, topic + FallbackTemplate[10])
    ensures EndsWith(r, FallbackSignature)
  {
    var args := Repeat(topic, 10);
    var r := Sprintf(FallbackTemplate, args);
    SprintfOpens(FallbackTemplate, args);
    SprintfCloses(FallbackTemplate, args);
    OpensWithTopic(r, topic);
    assert topic + FallbackTemplate[10] == (topic + FallbackClosing) + FallbackSignature;
    EndsWithConcat(topic + FallbackClosing, FallbackSignature);
    EndsWithTransitive(r, topic + FallbackTemplate[10], FallbackSignature);
    r
  }

  /** Two outputs that open with the enhanced and with the fallback outline
      differ: right after the first bullet the enhanced outline continues
      with "Core", the fallback with "Key". */
  lemma OutlinesDiffer(e: string, f: string, topic: string)
    requires StartsWith(e, OutlineHead + IntroBullet + topic + EnhancedTemplate[1])
    requires StartsWith(f, OutlineHead + IntroBullet + topic + FallbackTemplate[1])
    ensures e != f
  {
    var head := OutlineHead + IntroBullet + topic;
    assert e[|head| + 3] == (head + EnhancedTemplate[1])[|head| + 3] == EnhancedTemplate[1][3] == 'C';
    assert f[|head| + 3] == (head + FallbackTemplate[1])[|head| + 3] == FallbackTemplate[1][3] == 'K';
  }

  /** The two intended templates never produce the same text. */
  lemma TemplatesDiffer(topic: string, modelPath: string)
    ensures EnhancedGeneration(topic, modelPath) != FallbackGeneration(topic)
  {
    OutlinesDiffer(EnhancedGeneration(topic, modelPath), FallbackGeneration(topic), topic);
  }

  /** The two templates as written never produce the same text either. */
  lemma TemplatesAsWrittenDiffer(topic: string, modelPath: string)
    ensures EnhancedGenerationAsWritten(topic, modelPath) != FallbackGenerationAsWritten(topic)
  {
    OutlinesDiffer(EnhancedGenerationAsWritten(topic, modelPath), FallbackGenerationAsWritten(topic), topic);
  }

  // -------------------------------------------------------------- generator

  /** An LLMGenerator; modelPath is "" when no model file was found. */
  datatype LLMGenerator = LLMGenerator(modelPath: string)

  /** GenerateContent as the program runs it: the enhanced template as
      written exactly when a model path is set, the fallback one otherwise. */
  function GenerateContentAsWritten(g: LLMGenerator, topic: string): (r: string)
    ensures |r| > 0
    ensures Contains(r, IntroBullet + topic)
    ensures r == EnhancedGenerationAsWritten(topic, g.modelPath) <==> g.modelPath != ""
    ensures r == FallbackGenerationAsWritten(topic) <==> g.modelPath == ""
  {
    TemplatesAsWrittenDiffer(topic, g.modelPath);
    if g.modelPath != "" then EnhancedGenerationAsWritten(topic, g.modelPath) else FallbackGenerationAsWritten(topic)
  }

  /** GenerateContent with the intended templates: the enhanced one exactly
      when a model path is set. */
  function GenerateContent(g: LLMGenerator, topic: string): (r: string)
    ensures |r| > 0
    ensures Contains(r, IntroBullet + topic)
    ensures r == EnhancedGeneration(topic, g.modelPath) <==> g.modelPath != ""
    ensures r == FallbackGeneration(topic) <==> g.modelPath == ""
  {
    TemplatesDiffer(topic, g.modelPath);
    if g.modelPath != "" then EnhancedGeneration(topic, g.modelPath) else FallbackGeneration(topic)
  }

  // --------------------------------------------------------- filepath.Base

  function TrimTrailingSlashes(path: string): (r: string)
    ensures |r| <= |path| && r == path[..|r|]
    ensures r == "" || r[|r| - 1] != '/'
    decreases |path|
  {
    if |path| > 0 && path[|path| - 1] == '/' then TrimTrailingSlashes(path[..|path| - 1]) else path
  }

  /** The text after the last '/'. */
  function LastElement(path: string): (r: string)
    ensures '/' !in r
    ensures |path| > 0 && path[|path| - 1] != '/' ==> |r| > 0
    decreases |path|
  {
    if |path| == 0 || path[|path| - 1] == '/' then ""
    else LastElement(path[..|path| - 1]) + [path[|path| - 1]]
  }

  /** filepath.Base for '/'-separated paths: "." for "", "/" for a path of
      slashes only, otherwise the last element once trailing slashes are gone. */
  function Base(path: string): (r: string)
    ensures |r| > 0
  {
    if path == "" then "."
    else
      var trimmed := TrimTrailingSlashes(path);
      if trimmed == "" then "/" else LastElement(trimmed)
  }

  lemma {:induction false} LastElementAfterSlash(dir: string, name: string)
    requires '/' !in name
    ensures LastElement(dir + "/" + name) == name
    decreases |name|
  {
    var s := dir + "/" + name;
    if name != "" {
      var init := name[..|name| - 1];
      assert s[..|s| - 1] == dir + "/" + init;
      assert s[|s| - 1] == name[|name| - 1];
      LastElementAfterSlash(dir, init);
      assert init + [name[|name| - 1]] == name;
    }
  }

  /** The base of a model file's path inside a directory is the file's name. */
  lemma BaseOfFileName(dir: string, name: string)
    requires name != "" && '/' !in name
    ensures Base(dir + "/" + name) == name
  {
    var s := dir + "/" + name;
    assert s[|s| - 1] == name[|name| - 1];
    assert TrimTrailingSlashes(s) == s;
    LastElementAfterSlash(dir, name);
  }

  // ------------------------------------------------- the model-file name test

  /** strings.ToLower on ASCII letters. */
  function LowerChar(c: char): char {
    if 'A' <= c <= 'Z' then (c as int + 32) as char else c
  }

  /** No upper-case ASCII letter is left; each one becomes its lower-case
      letter and every other character is kept. */
  function ToLower(s: string): (r: string)
    ensures |r| == |s|
    ensures forall i :: 0 <= i < |r| ==> !('A' <= r[i] <= 'Z')
    ensures forall i :: 0 <= i < |s| && !('A' <= s[i] <= 'Z') ==> r[i] == s[i]
    ensures forall i :: 0 <= i < |s| && 'A' <= s[i] <= 'Z' ==>
      'a' <= r[i] <= 'z' && r[i] as int - 'a' as int == s[i] as int - 'A' as int
  {
    seq(|s|, i requires 0 <= i < |s| => LowerChar(s[i]))
  }

  /** The last |ext| characters of name spell ext, ignoring ASCII case. */
  predicate EndsWithIgnoringCase(name: string, ext: string) {
    |ext| <= |name| && forall k :: 0 <= k < |ext| ==> LowerChar(name[|name| - |ext| + k]) == ext[k]
  }

  lemma LowerSuffix(name: string, ext: string)
    ensures EndsWith(ToLower(name), ext) <==> EndsWithIgnoringCase(name, ext)
  {
    var lower := ToLower(name);
    if |ext| <= |name| {
      if EndsWithIgnoringCase(name, ext) {
        assert lower[|lower| - |ext|..] == ext;
      }
      if EndsWith(lower, ext) {
        forall k | 0 <= k < |ext| ensures LowerChar(name[|name| - |ext| + k]) == ext[k] {
          assert lower[|lower| - |ext|..][k] == ext[k];
        }
      }
    }
  }

  /** Only a '.' lowers to '.'. */
  lemma ExtensionDot(name: string, ext: string)
    ensures EndsWithIgnoringCase(name, ext) && |ext| > 0 && ext[0] == '.' ==> name[|name| - |ext|] == '.'
  {
    if EndsWithIgnoringCase(name, ext) && |ext| > 0 {
      assert LowerChar(name[|name| - |ext| + 0]) == ext[0];
    }
  }

  /** The test findModel applies to each directory entry. */
  function IsModelFile(name: string, isDir: bool): (r: bool)
    ensures r <==> !isDir && (EndsWithIgnoringCase(name, ".gguf") || EndsWithIgnoringCase(name, ".ggml"))
    ensures r ==> |name| >= 5 && name[|name| - 5] == '.'
  {
    ExtensionDot(name, ".gguf");
    ExtensionDot(name, ".ggml");
    LowerSuffix(name, ".gguf");
    LowerSuffix(name, ".ggml");
    if isDir then false
    else
      var lower := ToLower(name);
      EndsWith(lower, ".gguf") || EndsWith(lower, ".ggml")
  }
}
