/** McpServerService: the tool, resource and prompt functions of the MCP
    server sample. Kotlin Int arithmetic is 32-bit two's complement and its
    division truncates toward zero; both are written out here. */
module McpServer {
  import opened Wrappers
  import opened Strings
  import MapOutputParser

  // ---------------------------------------------------------------------
  // 32-bit integers

  const Two31: int := 0x8000_0000
  const Two32: int := 0x1_0000_0000

  newtype Int32 = x: int | -0x8000_0000 <= x < 0x8000_0000

  /** The two's-complement wrap of an exact result into 32 bits. */
  function Wrap(x: int): (r: Int32)
    ensures (r as int - x) % Two32 == 0
    ensures -Two31 <= x < Two31 ==> r as int == x
  {
    var m := (x + Two31) % Two32;
    assert x - (m - Two31) == Two32 * ((x + Two31) / Two32);
    (m - Two31) as Int32
  }

  function Abs(x: int): nat {
    if x < 0 then -x else x
  }

  /** Kotlin/JVM integer division: the quotient truncated toward zero. */
  function TruncDiv(a: int, b: int): int
    requires b != 0
  {
    var q := Abs(a) / Abs(b);
    if (a < 0) == (b < 0) then q else -q
  }

  /** The truncated quotient leaves a remainder smaller than the divisor that
      has the sign of the dividend (or is zero), so |q * b| never exceeds |a|. */
  lemma TruncDivSpec(a: int, b: int)
    requires b != 0
    ensures var q := TruncDiv(a, b);
            var rem := a - q * b;
            && Abs(rem) < Abs(b)
            && (rem == 0 || (rem < 0 <==> a < 0))
            && Abs(q * b) <= Abs(a)
  {
    var p := (Abs(a) / Abs(b)) * Abs(b);
    TruncProduct(a, b);
    DivisionParts(Abs(a), Abs(b));
    RemainderOfProduct(a, b, p, Abs(a) % Abs(b), TruncDiv(a, b) * b);
  }

  /** |a| = (|a| / |b|) * |b| + |a| % |b|, with both parts non-negative. */
  lemma DivisionParts(aa: nat, ab: nat)
    requires ab > 0
    ensures aa == (aa / ab) * ab + aa % ab && 0 <= aa % ab < ab && (aa / ab) * ab >= 0
  {
  }

  /** The truncated quotient times the divisor is |a| rounded down to a
      multiple of |b|, with the sign of a. */
  lemma TruncProduct(a: int, b: int)
    requires b != 0
    ensures TruncDiv(a, b) * b == (if a < 0 then -((Abs(a) / Abs(b)) * Abs(b)) else (Abs(a) / Abs(b)) * Abs(b))
  {
    var q0 := Abs(a) / Abs(b);
    var ab := Abs(b);
    if a >= 0 && b < 0 {
      MulNegNeg(q0, ab);
    } else if a < 0 && b > 0 {
      MulNegLeft(q0, ab);
    } else if a < 0 && b < 0 {
      MulNegRight(q0, ab);
    }
  }

  /** The remainder facts, once the product is known: linear arithmetic. */
  lemma RemainderOfProduct(a: int, b: int, p: int, r: int, qb: int)
    requires b != 0 && Abs(a) == p + r && 0 <= r < Abs(b) && p >= 0
    requires qb == (if a < 0 then -p else p)
    ensures Abs(a - qb) < Abs(b) && (a - qb == 0 || (a - qb < 0 <==> a < 0)) && Abs(qb) <= Abs(a)
  {
  }

  lemma MulNegLeft(x: int, y: int)
    ensures (-x) * y == -(x * y)
  {
  }

  lemma MulNegRight(x: int, y: int)
    ensures x * (-y) == -(x * y)
  {
  }

  lemma MulNegNeg(x: int, y: int)
    ensures (-x) * (-y) == x * y
  {
  }

  /** It differs from Dafny's Euclidean division for a negative dividend. */
  lemma TruncDivNegative()
    ensures TruncDiv(-7, 2) == -3 && -7 / 2 == -4
    ensures TruncDiv(7, -2) == -3 && TruncDiv(-7, -2) == 3
  {
  }

  // ---------------------------------------------------------------------
  // calculate

  /** calculate: the operation name is matched case-insensitively; division
      by zero gives 0; an unknown operation is an IllegalArgumentException. */
  function Calculate(a: Int32, b: Int32, operation: string): (r: Result<Int32>)
    ensures r.Err? <==> Lower(operation) !in ["add", "subtract", "multiply", "divide"]
    ensures r.Err? ==> r.error == "Unknown operation: " + operation
    ensures Lower(operation) == "add" ==> r == Ok(Wrap(a as int + b as int))
    ensures Lower(operation) == "subtract" ==> r == Ok(Wrap(a as int - b as int))
    ensures Lower(operation) == "multiply" ==> r == Ok(Wrap(a as int * b as int))
    ensures Lower(operation) == "divide" && b == 0 ==> r == Ok(0)
    ensures Lower(operation) == "divide" && b != 0 ==> r == Ok(Wrap(TruncDiv(a as int, b as int)))
  {
    match Lower(operation)
    case "add" => Ok(Wrap(a as int + b as int))
    case "subtract" => Ok(Wrap(a as int - b as int))
    case "multiply" => Ok(Wrap(a as int * b as int))
    case "divide" => if b != 0 then Ok(Wrap(TruncDiv(a as int, b as int))) else Ok(0)
    case _ => Err("Unknown operation: " + operation)
  }

  /** Without overflow, addition and subtraction are the exact ones ... */
  lemma CalculateExact(a: Int32, b: Int32, operation: string)
    ensures Lower(operation) == "add" && -Two31 <= a as int + b as int < Two31 ==>
              Calculate(a, b, operation) == Ok((a as int + b as int) as Int32)
    ensures Lower(operation) == "subtract" && -Two31 <= a as int - b as int < Two31 ==>
              Calculate(a, b, operation) == Ok((a as int - b as int) as Int32)
  {
  }

  /** ... and every quotient but Int.MIN_VALUE / -1 fits. */
  lemma CalculateDivideExact(a: Int32, b: Int32, operation: string)
    requires Lower(operation) == "divide" && b != 0 && !(a == -0x8000_0000 && b == -1)
    ensures Calculate(a, b, operation) == Ok(TruncDiv(a as int, b as int) as Int32)
  {
    TruncDivFits(a as int, b as int);
  }

  lemma TruncDivFits(a: int, b: int)
    requires -Two31 <= a < Two31 && -Two31 <= b < Two31 && b != 0
    requires !(a == -Two31 && b == -1)
    ensures -Two31 <= TruncDiv(a, b) < Two31
  {
    QuotientBound(Abs(a), Abs(b));
  }

  /** A quotient of naturals is at most the dividend, and at most half of it
      for a divisor of 2 or more. */
  lemma QuotientBound(aa: nat, ab: nat)
    requires ab >= 1
    ensures aa / ab <= aa
    ensures ab == 1 ==> aa / ab == aa
    ensures ab >= 2 ==> 2 * (aa / ab) <= aa
  {
    var q0 := aa / ab;
    DivisionParts(aa, ab);
    MulMonoRight(q0, 1, ab);
    if ab >= 2 {
      MulMonoRight(q0, 2, ab);
    }
  }

  lemma MulMonoRight(x: int, y: int, z: int)
    requires x >= 0 && y <= z
    ensures x * y <= x * z
  {
  }

  /** The one quotient that does not fit wraps: Int.MIN_VALUE / -1 is
      Int.MIN_VALUE; an addition past Int.MAX_VALUE wraps to the negatives. */
  lemma CalculateWraps()
    ensures Calculate(-0x8000_0000, -1, "divide") == Ok(-0x8000_0000)
    ensures Calculate(0x7FFF_FFFF, 1, "add") == Ok(-0x8000_0000)
  {
    assert Lower("divide") == "divide";
    assert Lower("add") == "add";
  }

  /** calculate(10, 5, "add") is 15, and the operation name may be in any case. */
  lemma CalculateAddExample()
    ensures Calculate(10, 5, "add") == Ok(15)
    ensures Calculate(10, 5, "ADD") == Ok(15)
  {
    assert Lower("add") == "add";
    assert Lower("ADD") == "add";
  }

  // ---------------------------------------------------------------------
  // convertCase

  /** Kotlin capitalize(): the first character upper-cased. */
  function Capitalize(w: string): (r: string)
    ensures |r| == |w|
  {
    if w == [] then w else [UpperChar(w[0])] + w[1..]
  }

  /** split(" ").joinToString(" ") { it.capitalize() }. */
  function TitleCase(text: string): string {
    Join(MapSeq(Split(text, " "), Capitalize), " ")
  }

  /** An independent description of title case: a character is upper-cased
      exactly when it opens the text or follows a space. */
  function TitleReference(text: string): (r: string)
    ensures |r| == |text|
  {
    seq(|text|, i requires 0 <= i < |text| =>
      if i == 0 || text[i - 1] == ' ' then UpperChar(text[i]) else text[i])
  }

  lemma TitleReferenceWord(p: string)
    requires ' ' !in p
    ensures TitleReference(p) == Capitalize(p)
  {
    if p != [] {
      forall i | 1 <= i < |p| ensures TitleReference(p)[i] == p[i] {
        assert p[i - 1] in p;
      }
    }
  }

  lemma TitleReferenceCons(p: string, rest: string)
    requires ' ' !in p
    ensures TitleReference(p + " " + rest) == Capitalize(p) + " " + TitleReference(rest)
  {
    var s := p + " " + rest;
    var lhs := TitleReference(s);
    var rhs := Capitalize(p) + " " + TitleReference(rest);
    assert |lhs| == |rhs|;
    forall i | 0 <= i < |s| ensures lhs[i] == rhs[i] {
      if i < |p| {
        if i > 0 {
          assert s[i - 1] == p[i - 1] && p[i - 1] in p;
        }
      } else if i == |p| {
        if i > 0 {
          assert s[i - 1] == p[i - 1] && p[i - 1] in p;
        }
      } else {
        var k := i - |p| - 1;
        assert s[i] == rest[k];
        if k > 0 {
          assert s[i - 1] == rest[k - 1];
        }
      }
    }
  }

  lemma {:induction false} JoinCapitalized(parts: seq<string>)
    requires |parts| >= 1
    requires forall p :: p in parts ==> ' ' !in p
    ensures Join(MapSeq(parts, Capitalize), " ") == TitleReference(Join(parts, " "))
    decreases |parts|
  {
    if |parts| == 1 {
      TitleReferenceWord(parts[0]);
    } else {
      var caps := MapSeq(parts, Capitalize);
      assert caps[1..] == MapSeq(parts[1..], Capitalize);
      assert parts[0] in parts;
      JoinCapitalized(parts[1..]);
      TitleReferenceCons(parts[0], Join(parts[1..], " "));
    }
  }

  /** Title case upper-cases exactly the first letter of the text and every
      letter after a space; so it keeps the length and every space. */
  lemma TitleCaseIsReference(text: string)
    ensures TitleCase(text) == TitleReference(text)
    ensures |TitleCase(text)| == |text|
    ensures forall i :: 0 <= i < |text| ==> (TitleCase(text)[i] == ' ' <==> text[i] == ' ')
  {
    var parts := SplitOn(text, " ");
    SplitPartsFree(text, " ");
    forall p | p in parts ensures ' ' !in p {
      ContainsChar(p, ' ');
    }
    JoinCapitalized(parts);
    SplitJoin(text, " ");
  }

  /** convertCase: upper, lower or title, named in any case; any other
      target leaves the text alone. */
  function ConvertCase(text: string, toCase: string): (r: string)
    ensures Lower(toCase) == "upper" ==> r == Upper(text)
    ensures Lower(toCase) == "lower" ==> r == Lower(text)
    ensures Lower(toCase) == "title" ==> r == TitleCase(text)
    ensures Lower(toCase) !in ["upper", "lower", "title"] ==> r == text
    ensures |r| == |text|
  {
    match Lower(toCase)
    case "upper" => Upper(text)
    case "lower" => Lower(text)
    case "title" => TitleCaseIsReference(text); TitleCase(text)
    case _ => text
  }

  // ---------------------------------------------------------------------
  // Prompt templates

  const Greeting: string := "Hello {name}, welcome to our service!"
  const Farewell: string := "Goodbye {name}, see you soon!"
  const Notification: string := "Hi {name}, you have {count} new messages."
  const NotFound: string := "Template not found"

  /** getPromptTemplate: three named templates, matched case-insensitively. */
  function GetPromptTemplate(templateName: string): (r: string)
    ensures r in [Greeting, Farewell, Notification, NotFound]
    ensures r == NotFound <==> Lower(templateName) !in ["greeting", "farewell", "notification"]
    ensures Lower(templateName) == "greeting" ==> r == Greeting
    ensures Lower(templateName) == "farewell" ==> r == Farewell
    ensures Lower(templateName) == "notification" ==> r == Notification
  {
    match Lower(templateName)
    case "greeting" => Greeting
    case "farewell" => Farewell
    case "notification" => Notification
    case _ => NotFound
  }

  /** The placeholder a parameter fills. */
  function Placeholder(key: string): (r: string)
    ensures |r| >= 2 && r[0] == '{'
  {
    "{" + key + "}"
  }

  /** The text after replacing the placeholders of params[..n], in order. */
  function Filled(template: string, params: MapOutputParser.Entries): string {
    if params == [] then template
    else
      var last := params[|params| - 1];
      Replace(Filled(template, params[..|params| - 1]), Placeholder(last.0), last.1)
  }

  /** No parameters: the template is returned as it is. */
  lemma FilledNoParams(template: string)
    ensures Filled(template, []) == template
  {
  }

  /** A template without '{' holds no placeholder, so it comes back unchanged. */
  lemma {:induction false} FilledWithoutBraces(template: string, params: MapOutputParser.Entries)
    requires '{' !in template
    ensures Filled(template, params) == template
  {
    if params != [] {
      var last := params[|params| - 1];
      FilledWithoutBraces(template, params[..|params| - 1]);
      AbsentFirstChar(template, Placeholder(last.0));
      ReplaceAbsent(template, Placeholder(last.0), last.1);
    }
  }

  /** fillTemplate: the forEach that reassigns result once per parameter. */
  method FillTemplate(template: string, params: MapOutputParser.Entries) returns (result: string)
    ensures result == Filled(template, params)
  {
    result := template;
    var i := 0;
    while i < |params|
      invariant 0 <= i <= |params|
      invariant result == Filled(template, params[..i])
    {
      assert params[..i + 1][..i] == params[..i];
      result := Replace(result, Placeholder(params[i].0), params[i].1);
      i := i + 1;
    }
    assert params[..i] == params;
  }
}
