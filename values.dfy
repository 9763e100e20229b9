/** How `parse_value` reads each kind of value text: integers, `[[...]]`
    texts, `|name|` references, the `{` that opens a nested dictionary, and
    everything else, which is rejected. */
module ValueReading {
  import opened Strings
  import opened Patterns
  import opened ConfigModel

  /** `s` is made only of the character `ch`: the trailing `;` or `,` that the
      parser strips. */
  predicate Repeats(s: string, ch: char) {
    forall i :: 0 <= i < |s| ==> s[i] == ch
  }

  /** `rstrip(chars)` removes exactly a suffix made of `chars` that follows a
      character outside `chars`. */
  lemma {:induction false} TrimEndSuffix(s: string, t: string, cs: set<char>)
    requires forall i :: 0 <= i < |t| ==> t[i] in cs
    requires |s| > 0 ==> s[|s| - 1] !in cs
    ensures TrimEnd(s + t, cs) == s
  {
    if |t| == 0 {
      assert s + t == s;
    } else {
      var u := s + t;
      assert u[|u| - 1] == t[|t| - 1];
      assert u[..|u| - 1] == s + t[..|t| - 1];
      TrimEndSuffix(s, t[..|t| - 1], cs);
    }
  }

  /** A string of decimal digits followed by any number of `;` is the integer
      those digits denote. */
  lemma ReadInteger(digits: string, semis: string)
    requires |digits| > 0 && AllDigits(digits) && Repeats(semis, ';')
    ensures ReadValue(digits + semis) == Number(DecimalValue(digits))
  {
    TrimEndSuffix(digits, semis, {';'});
  }

  /** The decimal text of `n`, with or without semicolons, reads back as `n`. */
  lemma ReadNumber(n: nat, semis: string)
    requires Repeats(semis, ';')
    ensures ReadValue(DecimalText(n) + semis) == Number(n)
  {
    ReadInteger(DecimalText(n), semis);
    DecimalRoundTrip(n);
  }

  /** `[[s]]` followed by any number of `;` is the text `s`, verbatim. */
  lemma ReadText(s: string, semis: string)
    requires NoNewline(s) && Repeats(semis, ';')
    ensures ReadValue("[[" + s + "]]" + semis) == Literal(s)
  {
    var v := "[[" + s + "]]";
    TrimEndSuffix(v, semis, {';'});
    TextLiteralOf(s);
    assert v[0] == '[';
  }

  /** `|name|` followed by any number of `;` refers to the constant `name`. */
  lemma ReadReference(name: string, semis: string)
    requires Repeats(semis, ';')
    ensures ReadValue("|" + name + "|" + semis) == Reference(name)
  {
    var v := "|" + name + "|";
    TrimEndSuffix(v, semis, {';'});
    ReferenceNameOf(name);
    assert v[0] == '|' && v[..2][0] == v[0];
  }

  /** `{`, with or without semicolons, opens a nested dictionary. */
  lemma ReadOpener(semis: string)
    requires Repeats(semis, ';')
    ensures ReadValue("{" + semis) == Opener
  {
    TrimEndSuffix("{", semis, {';'});
    assert "{"[0] == '{' && "{"[..1][0] == '{';
    StripUnchanged("{");
  }

  /** A word that starts with a letter is none of the value forms: it is
      rejected, and the error quotes it without its trailing `;`. */
  lemma ReadWord(w: string, semis: string)
    requires |w| > 0 && IsLetter(w[0]) && w[|w| - 1] != ';' && Repeats(semis, ';')
    ensures ReadValue(w + semis) == Invalid(w)
  {
    TrimEndSuffix(w, semis, {';'});
    assert !IsSpace(w[0]);
    var r := Strip(w);
    assert SpaceRun(w) == 0;
    if |r| > 0 {
      assert r[0] == w[0];
    }
    assert r != "{";
    assert IntegerLiteral(w).None? && TextLiteral(w).None? && ReferenceName(w).None?;
  }
}
