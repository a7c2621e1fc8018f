/** The fixed catalogue of 93 control codes of Annex A of ISO/IEC 27001:2022
    (apps/api/src/modules/compliance/annex-a.ts). */
module AnnexA {
  import opened Decimal

  /** The codes of one theme: "A.5.1", "A.5.2" and so on. */
  function Code(theme: nat, number: nat): string {
    "A." + Numeral(theme) + "." + Numeral(number)
  }

  function Block(theme: nat, count: nat): (codes: seq<string>)
    ensures |codes| == count && forall i | 0 <= i < count :: codes[i] == Code(theme, i + 1)
  {
    seq(count, i requires 0 <= i < count => Code(theme, i + 1))
  }

  const ORGANIZATIONAL := Block(5, 37)
  const PEOPLE := Block(6, 8)
  const PHYSICAL := Block(7, 14)
  const TECHNOLOGICAL := Block(8, 34)

  const ANNEX_CONTROLS := ORGANIZATIONAL + PEOPLE + PHYSICAL + TECHNOLOGICAL

  predicate IsAnnexControlCode(code: string) {
    code in ANNEX_CONTROLS
  }

  /** How many controls a theme has. */
  function ThemeSize(theme: nat): nat {
    match theme case 5 => 37 case 6 => 8 case 7 => 14 case 8 => 34 case _ => 0
  }

  lemma CodeInjective(theme: nat, number: nat, theme': nat, number': nat)
    requires theme < 10 && theme' < 10 && Code(theme, number) == Code(theme', number')
    ensures theme == theme' && number == number'
  {
    assert Numeral(theme) == [DigitChar(theme)] && Numeral(theme') == [DigitChar(theme')];
    assert Code(theme, number)[2] == DigitChar(theme) && Code(theme', number')[2] == DigitChar(theme');
    assert Code(theme, number)[4..] == Numeral(number) && Code(theme', number')[4..] == Numeral(number');
    NumeralInjective(number, number');
  }

  /** The position of a code in the catalogue decides its theme and number. */
  function ThemeAt(i: nat): nat
    requires i < 93
  {
    if i < 37 then 5 else if i < 45 then 6 else if i < 59 then 7 else 8
  }

  function NumberAt(i: nat): nat
    requires i < 93
  {
    if i < 37 then i + 1 else if i < 45 then i - 36 else if i < 59 then i - 44 else i - 58
  }

  lemma CodeAt(i: nat)
    requires i < 93
    ensures |ANNEX_CONTROLS| == 93 && ANNEX_CONTROLS[i] == Code(ThemeAt(i), NumberAt(i))
  {
    hide Code;
  }

  /** There are exactly 93 controls, no two with the same code. */
  lemma NinetyThreeCodes()
    ensures |ANNEX_CONTROLS| == 93
    ensures forall i, j | 0 <= i < j < 93 :: ANNEX_CONTROLS[i] != ANNEX_CONTROLS[j]
  {
    CodeAt(0);
    forall i, j | 0 <= i < j < 93
      ensures ANNEX_CONTROLS[i] != ANNEX_CONTROLS[j]
    {
      CodeAt(i);
      CodeAt(j);
      assert ThemeAt(i) != ThemeAt(j) || NumberAt(i) != NumberAt(j);
      CodesDiffer(ThemeAt(i), NumberAt(i), ThemeAt(j), NumberAt(j));
    }
  }

  lemma CodesDiffer(theme: nat, number: nat, theme': nat, number': nat)
    requires theme < 10 && theme' < 10 && (theme != theme' || number != number')
    ensures Code(theme, number) != Code(theme', number')
  {
    if Code(theme, number) == Code(theme', number') {
      CodeInjective(theme, number, theme', number');
    }
  }

  /** A code is in the catalogue exactly when it names a control of one of the four themes by its number. */
  lemma CataloguedIff(theme: nat, number: nat)
    requires theme < 10
    ensures IsAnnexControlCode(Code(theme, number)) <==> 1 <= number <= ThemeSize(theme)
  {
    if 1 <= number <= ThemeSize(theme) {
      var i := if theme == 5 then number - 1 else if theme == 6 then number + 36 else if theme == 7 then number + 44
        else number + 58;
      CodeAt(i);
      assert ANNEX_CONTROLS[i] in ANNEX_CONTROLS;
    }
    if IsAnnexControlCode(Code(theme, number)) {
      CodeAt(0);
      var i :| 0 <= i < |ANNEX_CONTROLS| && ANNEX_CONTROLS[i] == Code(theme, number);
      CodeAt(i);
      CodeInjective(theme, number, ThemeAt(i), NumberAt(i));
    }
  }
}
