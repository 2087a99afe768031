/**
  Affliction identifiers are compared with an ordinal, case-insensitive
  comparison. This module models that comparison for ASCII letters: two
  identifiers match when they agree character by character after folding
  'a'..'z' onto 'A'..'Z'.
 */
module Identifiers {

  /** Folds a lower-case ASCII letter onto its upper-case form. */
  function FoldChar(c: char): char {
    if 'a' <= c <= 'z' then (c as int - 32) as char else c
  }

  /** The key an identifier is compared by: the identifier with every character folded. */
  function Fold(s: string): (f: string)
    ensures |f| == |s|
    ensures forall i :: 0 <= i < |s| ==> f[i] == FoldChar(s[i])
  {
    if s == [] then [] else [FoldChar(s[0])] + Fold(s[1..])
  }

  /** Case-insensitive identifier equality. */
  predicate IdEquals(a: string, b: string) {
    Fold(a) == Fold(b)
  }

  /** Identifiers match exactly when they have the same length and agree character by character up to case. */
  lemma IdEqualsCharwise(a: string, b: string)
    ensures IdEquals(a, b) <==> |a| == |b| && forall i :: 0 <= i < |a| ==> FoldChar(a[i]) == FoldChar(b[i])
  {
    if |a| == |b| && forall i :: 0 <= i < |a| ==> FoldChar(a[i]) == FoldChar(b[i]) {
      assert forall i :: 0 <= i < |a| ==> Fold(a)[i] == Fold(b)[i];
    }
  }
}
