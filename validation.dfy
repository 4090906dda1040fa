/**
 * The e-mail check the forms' schemas apply (`z.string().email()`): a local part of
 * letters, digits and `_ ' + - .` that neither starts nor ends with a dot and holds no
 * two dots in a row, then `@`, then dot-separated domain labels (starting with a letter or
 * digit, then letters, digits and `-`) ending in an alphabetic top-level label of at least
 * two letters.
 */
module Validation {
  import opened Text

  predicate IsLetter(c: char) { 'a' <= c <= 'z' || 'A' <= c <= 'Z' }

  predicate IsAlnum(c: char) { IsLetter(c) || IsDigit(c) }

  predicate LocalChar(c: char) { IsAlnum(c) || c == '_' || c == '\'' || c == '+' || c == '-' || c == '.' }

  predicate ValidLocal(s: string)
  {
    && |s| >= 1
    && (forall i :: 0 <= i < |s| ==> LocalChar(s[i]))
    && s[0] != '.'
    && s[|s| - 1] != '.' && s[|s| - 1] != '\''
    && (forall i :: 0 <= i < |s| - 1 ==> !(s[i] == '.' && s[i + 1] == '.'))
  }

  predicate ValidLabel(s: string)
  {
    |s| >= 1 && IsAlnum(s[0]) && forall i :: 0 <= i < |s| ==> IsAlnum(s[i]) || s[i] == '-'
  }

  predicate ValidTopLabel(s: string)
  {
    |s| >= 2 && forall i :: 0 <= i < |s| ==> IsLetter(s[i])
  }

  predicate ValidDomain(d: string)
  {
    var labels := Split(d, '.');
    && |labels| >= 2
    && (forall i :: 0 <= i < |labels| - 1 ==> ValidLabel(labels[i]))
    && ValidTopLabel(labels[|labels| - 1])
  }

  predicate ValidEmail(s: string)
  {
    var parts := Split(s, '@');
    |parts| == 2 && ValidLocal(parts[0]) && ValidDomain(parts[1])
  }

  /**
   * An address is valid exactly when it is one `@` between a valid local part and a valid
   * domain; in particular a valid address holds exactly one `@`.
   */
  lemma ValidEmailParts(local: string, domain: string)
    requires '@' !in local && '@' !in domain
    ensures ValidEmail(local + "@" + domain) <==> ValidLocal(local) && ValidDomain(domain)
  {
    SplitJoin([local, domain], '@');
    assert Join([local, domain], '@') == local + "@" + domain by {
      assert Join([domain], '@') == domain;
    }
  }

  /** A valid address never holds a second `@`: whatever follows the first one is the domain. */
  lemma ValidEmailOneAt(s: string)
    requires ValidEmail(s)
    ensures exists local, domain :: s == local + "@" + domain && '@' !in local && '@' !in domain
  {
    var parts := Split(s, '@');
    assert Join(parts, '@') == s;
    assert parts == [parts[0], parts[1]];
    assert Join([parts[1]], '@') == parts[1];
    assert s == parts[0] + "@" + parts[1];
  }
}
