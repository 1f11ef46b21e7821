/** System messages for role-based chat: four fixed personas chosen by name,
    a default, and a message assembled from a custom role, instructions and
    principles. The chat client's answer is a parameter. */
module RoleClient {
  import opened Wrappers
  import opened Strings

  /** The indentation of the fixed persona literals and of the custom one. */
  const PersonaMargin: string := "                "
  const CustomMargin: string := "            "

  const TeacherLines: seq<string> := [
    "당신은 친절한 선생님입니다.", "",
    "다음 원칙을 따라주세요:",
    "1. 복잡한 개념을 쉽게 설명하기", "2. 예시를 통해 이해를 돕기", "3. 학생의 수준에 맞춰 설명하기", "",
    "응답 형식:",
    "- 간단한 요약", "- 자세한 설명", "- 실용적인 예시"]

  const DoctorLines: seq<string> := [
    "당신은 전문 의사입니다.", "",
    "다음 원칙을 따라주세요:",
    "1. 의학적 지식을 바탕으로 정확하게 답변", "2. 전문 용어는 쉽게 설명", "3. 진단은 하지 않고 일반적인 정보만 제공", "",
    "응답 형식:",
    "- 일반적인 설명", "- 주의사항", "- 의료진 상담 권장"]

  const ChefLines: seq<string> := [
    "당신은 유명한 셰프입니다.", "",
    "다음 원칙을 따라주세요:",
    "1. 요리에 대한 열정을 보여주기", "2. 실용적인 팁 제공", "3. 단계별 설명을 명확하게", "",
    "응답 형식:",
    "- 요리 소개", "- 재료 및 분량", "- 조리 방법"]

  const DeveloperLines: seq<string> := [
    "당신은 숙련된 소프트웨어 개발자입니다.", "",
    "다음 원칙을 따라주세요:",
    "1. 명확하고 실행 가능한 코드 예제 제공", "2. 코드에는 주석 추가", "3. 베스트 프랙티스 설명", "",
    "응답 형식:",
    "- 간단한 설명", "- 코드 예제", "- 추가 팁"]

  const DefaultMessage: string := "당신은 도움이 되는 어시스턴트입니다."

  /** The reply used when the chat client returns no content. */
  const NoResponse: string := "응답 없음"

  /** The four persona names, as matched after lower-casing. */
  const Personas: seq<string> := ["teacher", "doctor", "chef", "developer"]

  /** The raw string literal of a persona as written in the source: an empty
      first line, the text behind the literal's margin, the closing margin. */
  function PersonaLiteral(lines: seq<string>): string {
    Join([""] + MapSeq(lines, l => PersonaMargin + l) + [PersonaMargin], "\n")
  }

  /** The persona text after trimIndent. */
  function PersonaText(lines: seq<string>): string {
    Join(lines, "\n")
  }

  /** createSystemMessage: the persona for the lower-cased role name, the
      default text for any other name. */
  function SystemMessage(role: string): (r: string)
    ensures Lower(role) !in Personas ==> r == DefaultMessage
    ensures Lower(role) == "teacher" ==> r == PersonaText(TeacherLines)
    ensures Lower(role) == "doctor" ==> r == PersonaText(DoctorLines)
    ensures Lower(role) == "chef" ==> r == PersonaText(ChefLines)
    ensures Lower(role) == "developer" ==> r == PersonaText(DeveloperLines)
  {
    match Lower(role)
    case "teacher" => PersonaText(TeacherLines)
    case "doctor" => PersonaText(DoctorLines)
    case "chef" => PersonaText(ChefLines)
    case "developer" => PersonaText(DeveloperLines)
    case _ => DefaultMessage
  }

  /** A persona text differs from the default text: they part at the fifth
      character of the first line. */
  lemma PersonaNotDefault(lines: seq<string>)
    requires |lines| >= 1 && |lines[0]| > 4 && lines[0][4] != DefaultMessage[4]
    ensures PersonaText(lines) != DefaultMessage
  {
    JoinStartsWithFirst(lines, "\n");
    assert PersonaText(lines)[4] == lines[0][4];
  }

  lemma PersonasNotDefault()
    ensures PersonaText(TeacherLines) != DefaultMessage && PersonaText(DoctorLines) != DefaultMessage
    ensures PersonaText(ChefLines) != DefaultMessage && PersonaText(DeveloperLines) != DefaultMessage
  {
    PersonaNotDefault(TeacherLines);
    PersonaNotDefault(DoctorLines);
    PersonaNotDefault(ChefLines);
    PersonaNotDefault(DeveloperLines);
  }

  /** Only a name outside the four personas gets the default text. */
  lemma DefaultOnlyForOthers(role: string)
    ensures SystemMessage(role) == DefaultMessage <==> Lower(role) !in Personas
  {
    PersonasNotDefault();
    DefaultIff(Lower(role), SystemMessage(role), PersonaText(TeacherLines), PersonaText(DoctorLines),
               PersonaText(ChefLines), PersonaText(DeveloperLines));
  }

  lemma DefaultIff(name: string, r: string, teacher: string, doctor: string, chef: string, developer: string)
    requires teacher != DefaultMessage && doctor != DefaultMessage && chef != DefaultMessage && developer != DefaultMessage
    requires name !in Personas ==> r == DefaultMessage
    requires name == "teacher" ==> r == teacher
    requires name == "doctor" ==> r == doctor
    requires name == "chef" ==> r == chef
    requires name == "developer" ==> r == developer
    ensures r == DefaultMessage <==> name !in Personas
  {
  }

  /** The shape every persona literal has: line-break free lines, the first
      starting right at the margin. */
  predicate PersonaShaped(lines: seq<string>) {
    |lines| >= 1 && |lines[0]| > 0 && !IsWhitespace(lines[0][0]) &&
    forall i :: 0 <= i < |lines| ==> '\n' !in lines[i]
  }

  /** trimIndent turns a persona literal into its text. */
  lemma PersonaLiteralTrimmed(lines: seq<string>)
    requires PersonaShaped(lines)
    ensures TrimIndent(PersonaLiteral(lines)) == PersonaText(lines)
  {
    TrimIndentLiteral(lines, PersonaMargin);
  }

  /** A persona text contains whatever one of its lines contains. */
  lemma PersonaContains(lines: seq<string>, i: int, pat: string)
    requires 0 <= i < |lines| && Contains(lines[i], pat)
    ensures Contains(PersonaText(lines), pat)
  {
    JoinContains(lines, "\n", i, pat);
  }

  /** Each persona's literal has the shape trimIndent needs. */
  lemma TeacherShaped() ensures PersonaShaped(TeacherLines) {
    TeacherLinesFront();
    TeacherLinesBack();
  }
  lemma TeacherLinesFront() ensures forall i :: 0 <= i < 6 ==> '\n' !in TeacherLines[i] { }
  lemma TeacherLinesBack() ensures forall i :: 6 <= i < |TeacherLines| ==> '\n' !in TeacherLines[i] { }
  lemma DoctorShaped() ensures PersonaShaped(DoctorLines) {
    DoctorLinesFront();
    DoctorLinesBack();
  }
  lemma DoctorLinesFront() ensures forall i :: 0 <= i < 6 ==> '\n' !in DoctorLines[i] { }
  lemma DoctorLinesBack() ensures forall i :: 6 <= i < |DoctorLines| ==> '\n' !in DoctorLines[i] { }
  lemma ChefShaped() ensures PersonaShaped(ChefLines) {
    ChefLinesFront();
    ChefLinesBack();
  }
  lemma ChefLinesFront() ensures forall i :: 0 <= i < 6 ==> '\n' !in ChefLines[i] { }
  lemma ChefLinesBack() ensures forall i :: 6 <= i < |ChefLines| ==> '\n' !in ChefLines[i] { }
  lemma DeveloperShaped() ensures PersonaShaped(DeveloperLines) {
    DeveloperLinesFront();
    DeveloperLinesBack();
  }
  lemma DeveloperLinesFront() ensures forall i :: 0 <= i < 6 ==> '\n' !in DeveloperLines[i] { }
  lemma DeveloperLinesBack() ensures forall i :: 6 <= i < |DeveloperLines| ==> '\n' !in DeveloperLines[i] { }

  /** The lines that name each persona and its subject; by PersonaContains
      the persona texts contain these words too. */
  lemma TeacherKeywordLines()
    ensures Contains(TeacherLines[0], "선생님") && Contains(TeacherLines[3], "쉽게 설명")
  {
    assert OccursAt(TeacherLines[0], "선생님", 8);
    assert OccursAt(TeacherLines[3], "쉽게 설명", 11);
  }

  lemma DoctorKeywordLines()
    ensures Contains(DoctorLines[0], "의사") && Contains(DoctorLines[3], "의학적")
  {
    assert OccursAt(DoctorLines[0], "의사", 7);
    assert OccursAt(DoctorLines[3], "의학적", 3);
  }

  lemma ChefKeywordLines()
    ensures Contains(ChefLines[0], "셰프") && Contains(ChefLines[3], "요리")
  {
    assert OccursAt(ChefLines[0], "셰프", 8);
    assert OccursAt(ChefLines[3], "요리", 3);
  }

  lemma DeveloperKeywordLines()
    ensures Contains(DeveloperLines[0], "개발자") && Contains(DeveloperLines[3], "코드")
  {
    assert OccursAt(DeveloperLines[0], "개발자", 14);
    assert OccursAt(DeveloperLines[3], "코드", 15);
  }

  /** The persona does not depend on the letter case of the role name. */
  lemma SystemMessageCaseInsensitive(role: string)
    ensures SystemMessage(role) == SystemMessage(Lower(role))
  {
    var l := Lower(role);
    assert forall i :: 0 <= i < |l| ==> LowerChar(l[i]) == l[i];
    assert Lower(l) == l;
  }

  function Bullet(p: string): string {
    "- " + p
  }

  function RoleLine(role: string): string {
    "당신은 " + role + " 역할을 맡고 있습니다."
  }

  const PrinciplesHeading: string := "다음 원칙을 따라주세요:"

  /** The principles as joinToString renders them, one bullet per line. */
  function BulletBlock(principles: seq<string>): string {
    Join(MapSeq(principles, Bullet), "\n")
  }

  /** The raw custom literal line by line, with the interpolated values in
      place; the bullet block carries its own line breaks. */
  function CustomLiteralLines(role: string, instructions: string, principles: seq<string>): seq<string> {
    ["", CustomMargin + RoleLine(role), CustomMargin + instructions, CustomMargin,
     CustomMargin + PrinciplesHeading, CustomMargin + BulletBlock(principles), CustomMargin]
  }

  /** createCustomSystemMessage as written: trimIndent applied after the
      values have been interpolated. */
  function CustomSystemMessageAsWritten(role: string, instructions: string, principles: seq<string>): string {
    TrimIndent(Join(CustomLiteralLines(role, instructions, principles), "\n"))
  }

  /** createCustomSystemMessage as intended: the same lines without the
      literal's margin, whatever the values hold. */
  function CustomSystemMessage(role: string, instructions: string, principles: seq<string>): string {
    Join([RoleLine(role), instructions, "", PrinciplesHeading, BulletBlock(principles)], "\n")
  }

  /** No line break in any of the values. */
  predicate SingleLine(role: string, instructions: string, principles: seq<string>) {
    '\n' !in role && '\n' !in instructions && forall p :: p in principles ==> '\n' !in p
  }

  lemma BulletBlockSingleLine(principles: seq<string>)
    requires |principles| <= 1 && forall p :: p in principles ==> '\n' !in p
    ensures '\n' !in BulletBlock(principles)
  {
    if |principles| == 1 {
      assert principles[0] in principles;
      assert BulletBlock(principles) == "- " + principles[0];
    }
  }

  /** With single-line values and at most one principle, the written code
      gives the intended message. */
  lemma CustomAgreesOnSingleLines(role: string, instructions: string, principles: seq<string>)
    requires SingleLine(role, instructions, principles) && |principles| <= 1
    ensures CustomSystemMessageAsWritten(role, instructions, principles) ==
            CustomSystemMessage(role, instructions, principles)
  {
    var body := [RoleLine(role), instructions, "", PrinciplesHeading, BulletBlock(principles)];
    BulletBlockSingleLine(principles);
    assert RoleLine(role) == "당신은 " + role + " 역할을 맡고 있습니다.";
    assert '\n' !in RoleLine(role);
    assert '\n' !in PrinciplesHeading;
    assert RoleLine(role)[0] == '당';
    TrimIndentLiteral(body, CustomMargin);
    var padded := MapSeq(body, l => CustomMargin + l);
    assert padded == [CustomMargin + RoleLine(role), CustomMargin + instructions, CustomMargin + "",
                      CustomMargin + PrinciplesHeading, CustomMargin + BulletBlock(principles)];
    assert CustomMargin + "" == CustomMargin;
    assert [""] + padded + [CustomMargin] == CustomLiteralLines(role, instructions, principles);
  }

  /** The intended message holds the role, the instructions and a "- p" line
      for every principle, so also every principle itself. */
  lemma CustomMessageContents(role: string, instructions: string, principles: seq<string>)
    ensures Contains(CustomSystemMessage(role, instructions, principles), role)
    ensures Contains(CustomSystemMessage(role, instructions, principles), instructions)
    ensures forall p :: p in principles ==>
              Contains(CustomSystemMessage(role, instructions, principles), Bullet(p))
              && Contains(CustomSystemMessage(role, instructions, principles), p)
  {
    var parts := [RoleLine(role), instructions, "", PrinciplesHeading, BulletBlock(principles)];
    var msg := CustomSystemMessage(role, instructions, principles);
    ContainsMiddle("당신은 ", role, " 역할을 맡고 있습니다.");
    JoinContains(parts, "\n", 0, role);
    assert OccursAt(instructions, instructions, 0);
    JoinContains(parts, "\n", 1, instructions);
    forall p | p in principles
      ensures Contains(msg, Bullet(p)) && Contains(msg, p)
    {
      var i :| 0 <= i < |principles| && principles[i] == p;
      var bullets := MapSeq(principles, Bullet);
      var b := Bullet(p);
      assert OccursAt(b, b, 0);
      JoinContains(bullets, "\n", i, b);
      JoinContains(parts, "\n", 4, b);
      ContainsMiddle("- ", p, "");
      assert "- " + p + "" == b;
      JoinContains(bullets, "\n", i, p);
      JoinContains(parts, "\n", 4, p);
    }
  }

  /** With single-line values and at least one principle, the intended
      message is exactly these lines: role, instructions, a blank line, the
      heading, then one bullet per principle. */
  lemma CustomMessageLines(role: string, instructions: string, principles: seq<string>)
    requires SingleLine(role, instructions, principles) && |principles| >= 1
    ensures Lines(CustomSystemMessage(role, instructions, principles)) ==
            [RoleLine(role), instructions, "", PrinciplesHeading] + MapSeq(principles, Bullet)
  {
    var head := [RoleLine(role), instructions, "", PrinciplesHeading];
    var bullets := MapSeq(principles, Bullet);
    JoinAppend(head, [BulletBlock(principles)], "\n");
    JoinAppend(head, bullets, "\n");
    assert head + [BulletBlock(principles)] == [RoleLine(role), instructions, "", PrinciplesHeading, BulletBlock(principles)];
    assert '\n' !in RoleLine(role) && '\n' !in PrinciplesHeading;
    forall l | l in head + bullets ensures '\n' !in l {
      if l in bullets {
        var i :| 0 <= i < |bullets| && bullets[i] == l;
        assert principles[i] in principles;
      }
    }
    LinesOfJoin(head + bullets);
  }

  /** The physical lines of the custom literal once the bullet block is
      interpolated: the margin stands only before the first bullet. */
  function InterpolatedLines(role: string, instructions: string, principles: seq<string>): seq<string>
    requires |principles| >= 1
  {
    var bullets := MapSeq(principles, Bullet);
    ["", CustomMargin + RoleLine(role), CustomMargin + instructions, CustomMargin,
     CustomMargin + PrinciplesHeading, CustomMargin + bullets[0]] + bullets[1..] + [CustomMargin]
  }

  lemma InterpolatedJoin(role: string, instructions: string, principles: seq<string>)
    requires |principles| >= 1
    ensures Join(CustomLiteralLines(role, instructions, principles), "\n") ==
            Join(InterpolatedLines(role, instructions, principles), "\n")
  {
    var bullets := MapSeq(principles, Bullet);
    var head := ["", CustomMargin + RoleLine(role), CustomMargin + instructions, CustomMargin,
                 CustomMargin + PrinciplesHeading];
    var first := [CustomMargin + bullets[0]] + bullets[1..];
    var x := CustomMargin + BulletBlock(principles);
    if |principles| >= 2 {
      assert BulletBlock(principles) == bullets[0] + "\n" + Join(bullets[1..], "\n");
      JoinCons(CustomMargin + bullets[0], bullets[1..], "\n");
    } else {
      assert bullets[1..] == [];
      assert first == [CustomMargin + bullets[0]];
    }
    assert x == Join(first, "\n");
    assert CustomLiteralLines(role, instructions, principles) == head + [x, CustomMargin];
    assert InterpolatedLines(role, instructions, principles) == head + (first + [CustomMargin]);
    JoinAppend(head, [x, CustomMargin], "\n");
    JoinCons(x, [CustomMargin], "\n");
    JoinAppend(head, first + [CustomMargin], "\n");
    JoinAppend(first, [CustomMargin], "\n");
  }

  lemma InterpolatedLinesFree(role: string, instructions: string, principles: seq<string>)
    requires SingleLine(role, instructions, principles) && |principles| >= 1
    ensures forall i :: 0 <= i < |InterpolatedLines(role, instructions, principles)| ==>
              '\n' !in InterpolatedLines(role, instructions, principles)[i]
  {
    var lines := InterpolatedLines(role, instructions, principles);
    var bullets := MapSeq(principles, Bullet);
    assert '\n' !in RoleLine(role) && '\n' !in PrinciplesHeading;
    forall i | 0 <= i < |lines| ensures '\n' !in lines[i] {
      if 6 <= i < |lines| - 1 {
        assert lines[i] == bullets[i - 5];
        assert principles[i - 5] in principles;
      } else if i == 5 {
        assert principles[0] in principles;
      }
    }
  }

  /** With two or more principles the second bullet starts a line of its own
      at column 0, the least indent becomes 0 and trimIndent removes no
      margin: the written message starts with twelve spaces, unlike the
      intended one. */
  lemma CustomAsWrittenKeepsMargin(role: string, instructions: string, principles: seq<string>)
    requires SingleLine(role, instructions, principles) && |principles| >= 2
    ensures StartsWith(CustomSystemMessageAsWritten(role, instructions, principles), CustomMargin + RoleLine(role))
    ensures CustomSystemMessageAsWritten(role, instructions, principles) !=
            CustomSystemMessage(role, instructions, principles)
  {
    var lines := InterpolatedLines(role, instructions, principles);
    InterpolatedJoin(role, instructions, principles);
    InterpolatedLinesFree(role, instructions, principles);
    LinesOfJoin(lines);
    // The line of the second bullet has no indent.
    assert lines[6] == "- " + principles[1];
    assert !IsBlank(lines[6]) && IndentWidth(lines[6]) == 0;
    MinIndentBelow(lines, 6);
    var kept := TrimIndentLines(lines);
    assert IsBlank(lines[0]) && IsBlank(lines[|lines| - 1]);
    assert kept[0] == DropChars(lines[1], 0) == CustomMargin + RoleLine(role);
    JoinStartsWithFirst(kept, "\n");
    var intended := CustomSystemMessage(role, instructions, principles);
    JoinStartsWithFirst([RoleLine(role), instructions, "", PrinciplesHeading, BulletBlock(principles)], "\n");
    assert intended[0] == '당';
  }

  /** The message as written still holds the role, the instructions and a
      "- p" line for every principle, when the values are single lines:
      with at most one principle it is the intended message, and with more
      nothing is stripped but the literal's first and last lines. */
  lemma CustomAsWrittenContents(role: string, instructions: string, principles: seq<string>)
    requires SingleLine(role, instructions, principles)
    ensures Contains(CustomSystemMessageAsWritten(role, instructions, principles), role)
    ensures Contains(CustomSystemMessageAsWritten(role, instructions, principles), instructions)
    ensures forall p :: p in principles ==>
              Contains(CustomSystemMessageAsWritten(role, instructions, principles), Bullet(p))
              && Contains(CustomSystemMessageAsWritten(role, instructions, principles), p)
  {
    if |principles| <= 1 {
      CustomAgreesOnSingleLines(role, instructions, principles);
      CustomMessageContents(role, instructions, principles);
    } else {
      var lines := InterpolatedLines(role, instructions, principles);
      InterpolatedJoin(role, instructions, principles);
      InterpolatedLinesFree(role, instructions, principles);
      LinesOfJoin(lines);
      assert lines[6] == "- " + principles[1];
      assert !IsBlank(lines[6]) && IndentWidth(lines[6]) == 0;
      assert IsBlank(lines[|lines| - 1]);
      TrimIndentFlush(lines, 6);
      var kept := lines[1..|lines| - 1];
      assert CustomSystemMessageAsWritten(role, instructions, principles) == Join(kept, "\n");
      CustomKeptContents(role, instructions, principles, kept);
    }
  }

  lemma CustomKeptContents(role: string, instructions: string, principles: seq<string>, kept: seq<string>)
    requires |principles| >= 2
    requires kept == InterpolatedLines(role, instructions, principles)[1..|InterpolatedLines(role, instructions, principles)| - 1]
    ensures Contains(Join(kept, "\n"), role) && Contains(Join(kept, "\n"), instructions)
    ensures forall p :: p in principles ==> Contains(Join(kept, "\n"), Bullet(p)) && Contains(Join(kept, "\n"), p)
  {
    var bullets := MapSeq(principles, Bullet);
    assert kept[0] == CustomMargin + "당신은 " + role + " 역할을 맡고 있습니다.";
    ContainsMiddle(CustomMargin + "당신은 ", role, " 역할을 맡고 있습니다.");
    JoinContains(kept, "\n", 0, role);
    assert kept[1] == CustomMargin + instructions + "";
    ContainsMiddle(CustomMargin, instructions, "");
    JoinContains(kept, "\n", 1, instructions);
    forall p | p in principles
      ensures Contains(Join(kept, "\n"), Bullet(p)) && Contains(Join(kept, "\n"), p)
    {
      var i :| 0 <= i < |principles| && principles[i] == p;
      var b := Bullet(p);
      if i == 0 {
        assert kept[4] == CustomMargin + b + "";
        ContainsMiddle(CustomMargin, b, "");
        ContainsMiddle(CustomMargin + "- ", p, "");
        assert CustomMargin + "- " + p + "" == kept[4];
        JoinContains(kept, "\n", 4, b);
        JoinContains(kept, "\n", 4, p);
      } else {
        assert kept[4 + i] == b;
        assert OccursAt(b, b, 0);
        ContainsMiddle("- ", p, "");
        assert "- " + p + "" == b;
        JoinContains(kept, "\n", 4 + i, b);
        JoinContains(kept, "\n", 4 + i, p);
      }
    }
  }

  /** The chat client's answer to a system and a user message. */
  type ChatCall = (string, string) -> Option<string>

  /** chat: the persona for the role as system text; no content becomes the
      fixed fallback. */
  function Chat(role: string, message: string, call: ChatCall): (r: string)
    ensures call(SystemMessage(role), message).None? ==> r == NoResponse
    ensures call(SystemMessage(role), message).Some? ==> r == call(SystemMessage(role), message).value
  {
    call(SystemMessage(role), message).GetOr(NoResponse)
  }

  /** customChat: the same with the custom message, as the source builds it,
      as system text. */
  function CustomChat(role: string, instructions: string, principles: seq<string>, message: string, call: ChatCall): (r: string)
    ensures var sys := CustomSystemMessageAsWritten(role, instructions, principles);
            (call(sys, message).None? ==> r == NoResponse) &&
            (call(sys, message).Some? ==> r == call(sys, message).value)
  {
    call(CustomSystemMessageAsWritten(role, instructions, principles), message).GetOr(NoResponse)
  }

  /** With single-line values and at most one principle customChat sends the
      intended message; with two or more it sends one that keeps the margin. */
  lemma CustomChatSends(role: string, instructions: string, principles: seq<string>, message: string, call: ChatCall)
    requires SingleLine(role, instructions, principles)
    ensures |principles| <= 1 ==>
      CustomChat(role, instructions, principles, message, call) ==
      call(CustomSystemMessage(role, instructions, principles), message).GetOr(NoResponse)
    ensures |principles| >= 2 ==>
      StartsWith(CustomSystemMessageAsWritten(role, instructions, principles), CustomMargin + RoleLine(role))
  {
    if |principles| <= 1 {
      CustomAgreesOnSingleLines(role, instructions, principles);
    } else {
      CustomAsWrittenKeepsMargin(role, instructions, principles);
    }
  }
}
