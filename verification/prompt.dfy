/**
  Prompt assembly, `generate_pro_prompt` (app.py:54-99), and what the
  generate button does with it (app.py:123-129): the required-field check,
  the optional reference fetch and the call to the assembler.
*/
module Prompt {
  import opened Wrappers
  import opened Text
  import opened Style
  import opened Scraper

  /** The form fields the assembler reads (app.py:106-119). */
  datatype JobForm = JobForm(
    category: string,
    equipment: string,
    location: string,
    workDetail: string,
    urgency: string,
    lengthOption: string,
    contactInfo: string)

  /** `generate_pro_prompt`'s result triple: the prompt and the two style choices it used. */
  datatype Generated = Generated(prompt: string, introStyle: string, pattern: string)

  /** What the button shows: the required-field warning, or a generated prompt. */
  datatype Outcome = Warning(message: string) | Shown(generated: Generated)

  const RequiredWarning := "업종과 작업 내용은 필수입니다!"

  const ReferenceHeading := "\n# [참고 자료]\n(아래 내용을 참고하되 문장은 새로 써)\n"

  /** The reference section (app.py:60-62): empty exactly when there is no reference text. */
  function ReferenceSection(refContent: string): (section: string)
    ensures section == "" <==> refContent == ""
    ensures refContent != "" ==> Contains(section, refContent)
  {
    if refContent != "" then
      var section := ReferenceHeading + refContent + "\n";
      assert section[|ReferenceHeading|..|ReferenceHeading| + |refContent|] == refContent;
      ContainsAt(section, refContent, |ReferenceHeading|);
      section
    else ""
  }

  /**
    The literal text of the f-string at app.py:64-98, cut at its
    interpolations. Source lines are separated by "\n" (the text of line 80
    ends in a space), and the last piece runs up to the closing quotes.
  */
  const PromptTemplate: seq<string> := [
    "\n# 역할\n너는 20년 경력의 '",
    "' 현장 전문가야.\n광고성 멘트나 로봇 같은 인사는 집어치우고, **옆집 형/오빠가 말해주듯** 자연스럽게 써.\n\n# 입력 정보\n- 업종: ",
    "\n- 장비: ",
    "\n- 장소: ",
    "\n- 작업: ",
    "\n- 상황: ",
    "\n\n",
    "\n\n# ★가장 중요한 도입부(시작) 가이드★\n이번 글의 시작은 무조건 **[",
    "]** 방식으로 해.\n**제발 \"안녕하세요 OOO입니다\" 라고 시작하지 마.** \n그냥 바로 날씨 얘기나, 현장 상황, 또는 질문으로 훅 치고 들어와.\n\n# 글 전개 및 분량\n1. 구조: **[",
    "]**\n2. 분량: ",
    "\n\n# 말투 및 주의사항\n1. **금지어**: \"알아보겠습니다\", \"살펴보겠습니다\", \"결론적으로\", \"소개합니다\". (절대 금지)\n2. **말투**: \"~했습니다\"와 함께 \"~했네요\", \"~더라구요\", \"~처리했죠\"를 섞어서 리듬감 있게.\n3. **전문성**: 감정보다는 '작업의 디테일(부품명, 증상)'을 구체적으로 묘사해.\n\n# 필수 요소\n- 중간중간 [사진: ~모습] 위치 표시.\n- 글 마지막에만 연락처 강조:\n",
    "\n\n위 가이드를 지켜서 작성해.\n    "
  ]

  /** The text after the contact information, up to the closing quotes (app.py:96-98). */
  const Closing := PromptTemplate[11]

  /** The f-string's pieces: the template's literal text `t` with the interpolated values between. */
  function PromptParts(t: seq<string>, job: JobForm, intro: string, pattern: string, lengthInstruction: string, refSection: string): seq<string>
    requires |t| == 12
  {
    [ t[0], job.category, t[1], job.category, t[2], job.equipment, t[3], job.location,
      t[4], job.workDetail, t[5], job.urgency, t[6], refSection, t[7], intro,
      t[8], pattern, t[9], lengthInstruction, t[10], job.contactInfo, t[11] ]
  }

  /**
    `generate_pro_prompt`, with the two random picks given as choices. The
    style strings it reports are members of their fixed lists.
  */
  function GenerateProPrompt(job: JobForm, introChoice: nat, patternChoice: nat, refContent: string): (g: Generated)
    requires introChoice < ChoiceCount && patternChoice < ChoiceCount
    ensures g.introStyle in IntroStyles && g.pattern in StructurePatterns
  {
    var pattern := StructurePattern(patternChoice);
    var intro := IntroStyle(introChoice);
    var lengthInstruction := LengthInstruction(job.lengthOption);
    var refSection := ReferenceSection(refContent);
    Generated(Concat(PromptParts(PromptTemplate, job, intro, pattern, lengthInstruction, refSection)), intro, pattern)
  }

  /** Whatever the literal text, every interpolated value occurs verbatim in the concatenation. */
  lemma PartsContainValues(t: seq<string>, job: JobForm, intro: string, pattern: string, lengthInstruction: string, refSection: string)
    requires |t| == 12
    ensures var prompt := Concat(PromptParts(t, job, intro, pattern, lengthInstruction, refSection));
      && Contains(prompt, job.category) && Contains(prompt, job.equipment) && Contains(prompt, job.location)
      && Contains(prompt, job.workDetail) && Contains(prompt, job.urgency) && Contains(prompt, job.contactInfo)
      && Contains(prompt, intro) && Contains(prompt, pattern) && Contains(prompt, lengthInstruction)
      && Contains(prompt, refSection)
  {
    var parts := PromptParts(t, job, intro, pattern, lengthInstruction, refSection);
    ConcatContainsEveryPart(parts);
    assert parts[1] == job.category && parts[5] == job.equipment && parts[7] == job.location;
    assert parts[9] == job.workDetail && parts[11] == job.urgency && parts[13] == refSection;
    assert parts[15] == intro && parts[17] == pattern;
    assert parts[19] == lengthInstruction && parts[21] == job.contactInfo;
  }

  /**
    The prompt holds every form value, the chosen intro and pattern, the
    length instruction and (when there is any) the reference text, each
    verbatim.
  */
  lemma PromptContainsInputs(job: JobForm, introChoice: nat, patternChoice: nat, refContent: string)
    requires introChoice < ChoiceCount && patternChoice < ChoiceCount
    ensures var g := GenerateProPrompt(job, introChoice, patternChoice, refContent);
      && Contains(g.prompt, job.category)
      && Contains(g.prompt, job.equipment)
      && Contains(g.prompt, job.location)
      && Contains(g.prompt, job.workDetail)
      && Contains(g.prompt, job.urgency)
      && Contains(g.prompt, job.contactInfo)
      && Contains(g.prompt, g.introStyle)
      && Contains(g.prompt, g.pattern)
      && Contains(g.prompt, LengthInstruction(job.lengthOption))
      && (refContent != "" ==> Contains(g.prompt, refContent))
  {
    var g := GenerateProPrompt(job, introChoice, patternChoice, refContent);
    var section := ReferenceSection(refContent);
    PartsContainValues(PromptTemplate, job, g.introStyle, g.pattern, LengthInstruction(job.lengthOption), section);
    if refContent != "" {
      ContainsInfix(g.prompt, section, refContent);
    }
  }

  /** The prompt ends with the contact information followed by the fixed closing line. */
  lemma PromptEndsWithContact(job: JobForm, introChoice: nat, patternChoice: nat, refContent: string)
    requires introChoice < ChoiceCount && patternChoice < ChoiceCount
    ensures var prompt := GenerateProPrompt(job, introChoice, patternChoice, refContent).prompt;
      && |job.contactInfo + Closing| <= |prompt|
      && prompt[|prompt| - |job.contactInfo + Closing|..] == job.contactInfo + Closing
  {
    var g := GenerateProPrompt(job, introChoice, patternChoice, refContent);
    var parts := PromptParts(PromptTemplate, job, g.introStyle, g.pattern, LengthInstruction(job.lengthOption), ReferenceSection(refContent));
    assert g.prompt == Concat(parts);
    ConcatEndsWithLastTwo(parts);
    assert parts[|parts| - 2] == job.contactInfo && parts[|parts| - 1] == Closing;
  }

  /**
    The generate button (app.py:123-129). With the category or the work
    detail empty it shows the warning, fetches nothing and builds no
    prompt; otherwise it fetches the references (only when URL text was
    given) and shows the assembled prompt. `requested` is the list of URLs
    handed to the page oracle.
  */
  method OnGenerate(job: JobForm, refUrls: string, fetch: string -> Option<string>, introChoice: nat, patternChoice: nat)
    returns (outcome: Outcome, ghost requested: seq<string>)
    requires introChoice < ChoiceCount && patternChoice < ChoiceCount
    ensures outcome.Warning? <==> job.category == "" || job.workDetail == ""
    ensures outcome.Warning? ==> outcome.message == RequiredWarning && requested == []
    ensures outcome.Shown? ==> outcome.generated == GenerateProPrompt(job, introChoice, patternChoice, ReferenceContent(refUrls, fetch))
    ensures outcome.Shown? ==> requested == MobileUrls(NormaliseUrls(refUrls)) && |requested| <= MaxUrls
  {
    if job.category == "" || job.workDetail == "" {
      return Warning(RequiredWarning), [];
    }
    var refContent := "";
    requested := [];
    if refUrls != "" {
      refContent, requested := ScrapeNaverBlogs(refUrls, fetch);
    } else {
      NormaliseEmpty();
      assert MobileUrls([]) == [];
    }
    assert refContent == ReferenceContent(refUrls, fetch);
    var g := GenerateProPrompt(job, introChoice, patternChoice, refContent);
    outcome := Shown(g);
  }
}
