/** Token kinds, lexical states and token images of the object query
    language lexer.  The constants are generated by the parser generator;
    `TokenImage(k)` is the printable form of token kind `k` (a quoted
    spelling for fixed tokens, `<NAME>` for token classes). */
module OQLParserConstants {
  import opened Wrappers

  const EOF := 0
  const SINGLE_LINE_COMMENT := 9
  const FORMAL_COMMENT := 10
  const MULTI_LINE_COMMENT := 11
  const INTEGER_LITERAL := 13
  const LONG_LITERAL := 14
  const DECIMAL_LITERAL := 15
  const HEX_LITERAL := 16
  const OCTAL_LITERAL := 17
  const FLOATING_POINT_LITERAL := 18
  const EXPONENT := 19
  const CHARACTER_LITERAL := 20
  const STRING_LITERAL := 21
  const INSTANCEOF := 22
  const TRUE := 23
  const FALSE := 24
  const OR := 25
  const AND := 26
  const NULL := 27
  const IMPLEMENTS := 28
  const DOLLAR_SIGN := 29
  const IDENTIFIER := 30
  const LETTER := 31
  const PART_LETTER := 32
  const LT := 33
  const BANG := 34
  const EQ := 35
  const LE := 36
  const GE := 37
  const NE := 38

  /** Lexical states. */
  const DEFAULT := 0
  const IN_SINGLE_LINE_COMMENT := 1
  const IN_FORMAL_COMMENT := 2
  const IN_MULTI_LINE_COMMENT := 3

  /** Every named token kind, in declaration order. */
  const NamedKinds: seq<int> := [
    EOF, SINGLE_LINE_COMMENT, FORMAL_COMMENT, MULTI_LINE_COMMENT, INTEGER_LITERAL, LONG_LITERAL,
    DECIMAL_LITERAL, HEX_LITERAL, OCTAL_LITERAL, FLOATING_POINT_LITERAL, EXPONENT, CHARACTER_LITERAL,
    STRING_LITERAL, INSTANCEOF, TRUE, FALSE, OR, AND, NULL, IMPLEMENTS, DOLLAR_SIGN, IDENTIFIER,
    LETTER, PART_LETTER, LT, BANG, EQ, LE, GE, NE]

  const LexicalStates: seq<int> := [DEFAULT, IN_SINGLE_LINE_COMMENT, IN_FORMAL_COMMENT, IN_MULTI_LINE_COMMENT]

  /** Number of entries in the token image table, one per token kind. */
  const ImageCount := 54

  /** Printable image of token kind `kind`: a quoted spelling for fixed
      tokens, `<NAME>` for token classes. */
  function TokenImage(kind: int): string
    requires 0 <= kind < ImageCount
  {
    match kind
      case 0 => "<EOF>"
      case 1 => "\" \""
      case 2 => "\"\\t\""
      case 3 => "\"\\n\""
      case 4 => "\"\\r\""
      case 5 => "\"\\f\""
      case 6 => "\"//\""
      case 7 => "<token of kind 7>"
      case 8 => "\"/*\""
      case 9 => "<SINGLE_LINE_COMMENT>"
      case 10 => "\"*/\""
      case 11 => "\"*/\""
      case 12 => "<token of kind 12>"
      case 13 => "<INTEGER_LITERAL>"
      case 14 => "<LONG_LITERAL>"
      case 15 => "<DECIMAL_LITERAL>"
      case 16 => "<HEX_LITERAL>"
      case 17 => "<OCTAL_LITERAL>"
      case 18 => "<FLOATING_POINT_LITERAL>"
      case 19 => "<EXPONENT>"
      case 20 => "<CHARACTER_LITERAL>"
      case 21 => "<STRING_LITERAL>"
      case 22 => "\"INSTANCEOF\""
      case 23 => "\"true\""
      case 24 => "\"false\""
      case 25 => "\"or\""
      case 26 => "\"and\""
      case 27 => "\"null\""
      case 28 => "\"implements\""
      case 29 => "\"$\""
      case 30 => "<IDENTIFIER>"
      case 31 => "<LETTER>"
      case 32 => "<PART_LETTER>"
      case 33 => "\"<\""
      case 34 => "\"!\""
      case 35 => "\"==\""
      case 36 => "\"<=\""
      case 37 => "\">=\""
      case 38 => "\"!=\""
      case 39 => "\";\""
      case 40 => "\"*\""
      case 41 => "\",\""
      case 42 => "\".\""
      case 43 => "\"{\""
      case 44 => "\"}\""
      case 45 => "\"@\""
      case 46 => "\"(\""
      case 47 => "\")\""
      case 48 => "\"[]\""
      case 49 => "\"=\""
      case 50 => "\">\""
      case 51 => "\"+\""
      case 52 => "\"-\""
      case _ => "\"/\""
  }

  /** The image of a token kind, `None` outside the table. */
  function ImageOf(kind: int): (r: Option<string>)
    ensures r.Some? <==> 0 <= kind < ImageCount
  {
    if 0 <= kind < ImageCount then Some(TokenImage(kind)) else None
  }

  /** Named kinds are pairwise distinct, EOF is 0 and NE is the largest. */
  lemma NamedKindsDistinct()
    ensures EOF == 0 && NE == 38
    ensures forall i, j :: 0 <= i < j < |NamedKinds| ==> NamedKinds[i] != NamedKinds[j]
    ensures forall i :: 0 <= i < |NamedKinds| ==> 0 <= NamedKinds[i] <= NE
  {
    assert forall i :: 0 <= i < |NamedKinds| - 1 ==> NamedKinds[i] < NamedKinds[i + 1];
    IncreasingOrdered(NamedKinds);
    assert NamedKinds[0] == EOF && NamedKinds[|NamedKinds| - 1] == NE;
  }

  /** A sequence that rises at every step is ordered throughout. */
  lemma {:induction false} IncreasingOrdered(s: seq<int>)
    requires forall i :: 0 <= i < |s| - 1 ==> s[i] < s[i + 1]
    ensures forall i, j :: 0 <= i < j < |s| ==> s[i] < s[j]
  {
    if |s| > 1 {
      var init := s[..|s| - 1];
      IncreasingOrdered(init);
      forall i, j | 0 <= i < j < |s| ensures s[i] < s[j] {
        assert s[i] == init[i];
        if j < |s| - 1 {
          assert s[j] == init[j];
        } else if i < j - 1 {
          assert init[i] < init[j - 1];
        }
      }
    }
  }

  /** The image table has 54 entries and every named kind indexes it. */
  lemma NamedKindsHaveImages()
    ensures ImageCount == 54
    ensures forall i :: 0 <= i < |NamedKinds| ==> ImageOf(NamedKinds[i]).Some?
  {
  }

  /** Keywords are matched with these exact, case-sensitive spellings. */
  lemma KeywordImages()
    ensures ImageOf(INSTANCEOF) == Some("\"INSTANCEOF\"")
    ensures ImageOf(TRUE) == Some("\"true\"") && ImageOf(FALSE) == Some("\"false\"")
    ensures ImageOf(OR) == Some("\"or\"") && ImageOf(AND) == Some("\"and\"")
    ensures ImageOf(NULL) == Some("\"null\"") && ImageOf(IMPLEMENTS) == Some("\"implements\"")
  {
  }

  /** The comparison operators and the negation print as their spellings. */
  lemma OperatorImages()
    ensures ImageOf(LT) == Some("\"<\"") && ImageOf(BANG) == Some("\"!\"") && ImageOf(EQ) == Some("\"==\"")
    ensures ImageOf(LE) == Some("\"<=\"") && ImageOf(GE) == Some("\">=\"") && ImageOf(NE) == Some("\"!=\"")
  {
  }

  /** ">" is the anonymous kind 50, which no named constant carries. */
  lemma GreaterIsAnonymous()
    ensures ImageOf(50) == Some("\">\"")
    ensures forall i :: 0 <= i < |NamedKinds| ==> NamedKinds[i] != 50
  {
    NamedKindsDistinct();
  }

  /** The four lexical states are 0..3 and distinct. */
  lemma LexicalStatesDistinct()
    ensures forall i :: 0 <= i < |LexicalStates| ==> LexicalStates[i] == i
  {
  }

  /** The comment kinds: the single-line comment is printed by name, the
      formal and the multi-line comment both by their closing "*\/". */
  lemma CommentImages()
    ensures ImageOf(SINGLE_LINE_COMMENT) == Some("<SINGLE_LINE_COMMENT>")
    ensures ImageOf(FORMAL_COMMENT) == Some("\"*/\"") && ImageOf(MULTI_LINE_COMMENT) == Some("\"*/\"")
  {
  }
}
