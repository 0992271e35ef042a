// Small text functions shared by labels and hunts.
module Text {

  function LowerChar(ch: char): char {
    if 'A' <= ch <= 'Z' then (ch as int + 32) as char else ch
  }

  function Lower(s: string): string {
    seq(|s|, i requires 0 <= i < |s| => LowerChar(s[i]))
  }

  // What the labeler accepts as a label.
  predicate LabelChar(ch: char) {
    'a' <= ch <= 'z' || 'A' <= ch <= 'Z' || '0' <= ch <= '9' || ch in "_$-"
  }

  predicate ValidLabel(name: string) {
    name != "" && forall i :: 0 <= i < |name| ==> LabelChar(name[i])
  }

  // The same letter, `a` in upper case (code 65 to 90) and `b` in lower case.
  predicate OtherCase(a: char, b: char) {
    65 <= a as int <= 90 && b as int == a as int + 32
  }

  predicate SameUpToCase(a: string, b: string) {
    |a| == |b| && forall i :: 0 <= i < |a| ==> a[i] == b[i] || OtherCase(a[i], b[i]) || OtherCase(b[i], a[i])
  }

  lemma LowerCharExact(a: char, b: char)
    ensures LowerChar(a) == LowerChar(b) <==> a == b || OtherCase(a, b) || OtherCase(b, a)
    ensures !(65 <= LowerChar(a) as int <= 90)
  {
  }

  // Two texts have the same lower case exactly when they differ only in case, and it
  // has no upper case letter.
  lemma LowerExact(a: string, b: string)
    ensures Lower(a) == Lower(b) <==> SameUpToCase(a, b)
    ensures forall i :: 0 <= i < |a| ==> !(65 <= Lower(a)[i] as int <= 90)
  {
    forall i | 0 <= i < |a| && i < |b| ensures
      Lower(a)[i] == Lower(b)[i] <==> a[i] == b[i] || OtherCase(a[i], b[i]) || OtherCase(b[i], a[i]) {
      LowerCharExact(a[i], b[i]);
    }
    forall i | 0 <= i < |a| ensures !(65 <= Lower(a)[i] as int <= 90) {
      LowerCharExact(a[i], a[i]);
    }
    if SameUpToCase(a, b) { assert Lower(a) == Lower(b); }
  }

  // A label consists of letters, digits, dollar signs, hyphens and underscores, by
  // their codes.
  lemma LabelExact(name: string)
    ensures ValidLabel(name) <==> name != "" && forall i :: 0 <= i < |name| ==>
      var code := name[i] as int;
      65 <= code <= 90 || 97 <= code <= 122 || 48 <= code <= 57 || code in {36, 45, 95}
  {
  }
}
