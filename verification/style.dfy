/**
  The style selector and the length policy (app.py:28-51). `random.choice`
  over a fixed four-element list becomes a caller-supplied index, so a
  caller (or a test) decides which element is picked.
*/
module Style {

  /** The four ways to lay out the post (app.py:29-34). */
  const StructurePatterns: seq<string> := [
    "A타입 (직설형): 결론(완료 사진)부터 보여주고, 역순으로 과정 풀기",
    "B타입 (스토리형): 현장의 문제 상황 묘사로 시작해 해결하는 과정",
    "C타입 (비교형): 작업 전(Before) vs 후(After) 비교 위주",
    "D타입 (정보형): 기술적 원리와 관리 팁을 섞어서 설명"
  ]

  /** The four ways to open the post (app.py:39-44). */
  const IntroStyles: seq<string> := [
    "1. 날씨/계절형: '날씨가 갑자기 추워져서 그런지...' 처럼 날씨 얘기로 자연스럽게 시작 (안녕하세요 금지)",
    "2. 현장상황형: '아침 9시부터 다급한 전화를 받고 달려갔습니다' 처럼 긴박하게 시작",
    "3. 질문형: '왜 꼭 급할 때만 장비가 말썽일까요?' 라고 독자에게 질문하며 시작",
    "4. 팩트형: 인사 생략하고 '오늘 현장은 OO동의 엘리베이터 없는 3층입니다' 라고 담백하게 시작"
  ]

  /** Each list has this many entries; a choice is an index below it. */
  const ChoiceCount: nat := 4

  /** `get_structure_pattern()` with the random pick given as `choice`. */
  function StructurePattern(choice: nat): (pattern: string)
    requires choice < ChoiceCount
    ensures pattern in StructurePatterns
  {
    StructurePatterns[choice]
  }

  /** `get_intro_style()` with the random pick given as `choice`. */
  function IntroStyle(choice: nat): (intro: string)
    requires choice < ChoiceCount
    ensures intro in IntroStyles
  {
    IntroStyles[choice]
  }

  /** Every pattern of the list is picked by some choice, and different choices pick different patterns. */
  lemma StructurePatternsAllReachable()
    ensures forall p :: p in StructurePatterns ==> exists c :: 0 <= c < ChoiceCount && StructurePattern(c) == p
    ensures forall c, d :: 0 <= c < ChoiceCount && 0 <= d < ChoiceCount && StructurePattern(c) == StructurePattern(d) ==> c == d
  {
    forall p | p in StructurePatterns
      ensures exists c :: 0 <= c < ChoiceCount && StructurePattern(c) == p
    {
      var c :| 0 <= c < |StructurePatterns| && StructurePatterns[c] == p;
      assert StructurePattern(c) == p;
    }
  }

  /** Every intro style of the list is picked by some choice, and different choices pick different styles. */
  lemma IntroStylesAllReachable()
    ensures forall s :: s in IntroStyles ==> exists c :: 0 <= c < ChoiceCount && IntroStyle(c) == s
    ensures forall c, d :: 0 <= c < ChoiceCount && 0 <= d < ChoiceCount && IntroStyle(c) == IntroStyle(d) ==> c == d
  {
    forall s | s in IntroStyles
      ensures exists c :: 0 <= c < ChoiceCount && IntroStyle(c) == s
    {
      var c :| 0 <= c < |IntroStyles| && IntroStyles[c] == s;
      assert IntroStyle(c) == s;
    }
  }

  // ---------------------------------------------------------------------------
  // Length policy (app.py:48-51)
  // ---------------------------------------------------------------------------

  /** The options of the length slider (app.py:107). */
  const Short := "짧게"
  const Medium := "보통"
  const Long := "길게"

  const ShortInstruction := "핵심만 간단히 1,000자 내외."
  const MediumInstruction := "에피소드 포함 1,500자 이상."
  const LongInstruction := "관리꿀팁, FAQ 포함 2,500자 이상 아주 길게."

  /**
    `get_length_instruction`: total over all strings. "짧게" gets the
    1,000-character instruction, "보통" the 1,500-character one, and every
    other string (the slider's "길게" among them) the 2,500-character one.
  */
  function LengthInstruction(option: string): (instruction: string)
    ensures instruction in {ShortInstruction, MediumInstruction, LongInstruction}
    ensures instruction == ShortInstruction <==> option == Short
    ensures instruction == MediumInstruction <==> option == Medium
    ensures instruction == LongInstruction <==> option != Short && option != Medium
  {
    if option == Short then ShortInstruction
    else if option == Medium then MediumInstruction
    else LongInstruction
  }

  /** The three slider options get three different instructions; "길게" falls to the default branch. */
  lemma SliderOptionsDistinguished()
    ensures LengthInstruction(Long) == LongInstruction
    ensures forall a, b :: a in [Short, Medium, Long] && b in [Short, Medium, Long] && LengthInstruction(a) == LengthInstruction(b) ==> a == b
  {
  }
}
