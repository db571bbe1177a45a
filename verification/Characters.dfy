/** Character classes of the C locale. */
module Characters {
  predicate IsDigit(c: char) {
    '0' <= c <= '9'
  }

  predicate IsAlpha(c: char) {
    'a' <= c <= 'z' || 'A' <= c <= 'Z'
  }

  predicate IsSpace(c: char) {
    c == ' ' || 9 <= c as int <= 13
  }

  /** `\w` */
  predicate IsWordChar(c: char) {
    IsAlpha(c) || IsDigit(c) || c == '_'
  }

  /** The classes by the codes of their characters. */
  lemma ClassesByCode(c: char)
    ensures var n := c as int;
            && (IsDigit(c) <==> 48 <= n <= 57)
            && (IsAlpha(c) <==> 65 <= n <= 90 || 97 <= n <= 122)
            && (IsSpace(c) <==> n == 32 || 9 <= n <= 13)
            && (IsWordChar(c) <==> 48 <= n <= 57 || 65 <= n <= 90 || 97 <= n <= 122 || n == 95)
  {
  }
}
