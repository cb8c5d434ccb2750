/**
 * The keyword classifier of `get_carpool_groups` (main.py): a group is a
 * carpool group when its case-folded subject is non-empty, contains some
 * inclusion keyword and contains no exclusion keyword, each as a plain
 * substring.
 */
module GroupClassifier {
  import opened EvolutionTypes
  import opened Sequences
  import opened Text

  /** The inclusion keywords as written in the source. The fourth is the
      UTF-8 bytes of "solidária" read as Latin-1 ("solidÃ¡ria"), kept as is. */
  const Words: seq<string> := ["carona", "rota", "solidaria", "solid\U{C3}\U{A1}ria", "vagas"]

  /** The exclusion keywords as written in the source. */
  const ExcludeWords: seq<string> := ["LDO"]

  /** `[w.casefold() for w in ws]` */
  function FoldAll(ws: seq<string>): (r: seq<string>)
    ensures |r| == |ws|
  {
    seq(|ws|, i requires 0 <= i < |ws| => CaseFold(ws[i]))
  }

  /** `group.get("subject", "")` */
  function SubjectOf(g: Group): string {
    match g.subject
    case None => ""
    case Some(s) => s
  }

  /** `any(word in subject for word in words)` */
  predicate AnyContained(subject: string, words: seq<string>) {
    exists i :: 0 <= i < |words| && Contains(subject, words[i])
  }

  /** The comprehension's condition for one group. Stated against the
      source's literal keywords: the subject is non-empty, its fold contains
      the fold of some inclusion keyword, and it does not contain "ldo". */
  predicate IsCarpool(g: Group)
    ensures IsCarpool(g) <==>
      SubjectOf(g) != [] &&
      (exists i :: 0 <= i < |Words| && Contains(CaseFold(SubjectOf(g)), CaseFold(Words[i]))) &&
      !Contains(CaseFold(SubjectOf(g)), "ldo")
  {
    FoldedKeywords();
    var subject := CaseFold(SubjectOf(g));
    assert AnyContained(subject, FoldAll(Words)) <==>
      exists i :: 0 <= i < |Words| && Contains(subject, CaseFold(Words[i])) by {
      assert forall i :: 0 <= i < |Words| ==> FoldAll(Words)[i] == CaseFold(Words[i]);
    }
    assert AnyContained(subject, FoldAll(ExcludeWords)) <==> Contains(subject, "ldo") by {
      assert FoldAll(ExcludeWords)[0] == "ldo";
    }
    subject != [] &&
    AnyContained(subject, FoldAll(Words)) &&
    !AnyContained(subject, FoldAll(ExcludeWords))
  }

  /** The groups `get_carpool_groups` returns for a supplied, non-empty list:
      input groups passing the test, in their original order. */
  function CarpoolGroups(groups: seq<Group>): (r: seq<Group>)
    ensures IsSubsequence(r, groups)
    ensures forall g :: g in r ==> g in groups && IsCarpool(g)
  {
    FilterIsSubsequence(IsCarpool, groups);
    Filter(IsCarpool, groups)
  }

  /** The folded keyword lists: the accented capital of the fourth keyword
      folds to its small letter; "LDO" folds to "ldo". */
  lemma FoldedKeywords()
    ensures FoldAll(Words) == ["carona", "rota", "solidaria", "solid\U{E3}\U{A1}ria", "vagas"]
    ensures FoldAll(ExcludeWords) == ["ldo"]
  {
    assert CaseFold("carona") == "carona";
    assert CaseFold("rota") == "rota";
    assert CaseFold("solidaria") == "solidaria";
    assert CaseFold("solid\U{C3}\U{A1}ria") == "solid\U{E3}\U{A1}ria";
    assert CaseFold("vagas") == "vagas";
    assert CaseFold("LDO") == "ldo";
  }

  /** Soundness and completeness: a group is returned exactly when it is one
      of the input groups and passes the classifier's test. */
  lemma CarpoolGroupsSelects(groups: seq<Group>, g: Group)
    ensures g in CarpoolGroups(groups) <==> g in groups && IsCarpool(g)
  {
    if g in groups && IsCarpool(g) {
      FilterComplete(IsCarpool, groups, g);
    }
  }

  /** Every returned group has a non-empty subject that contains, case
      folded, one of the source's inclusion keywords, folded. */
  lemma CarpoolGroupHasKeyword(groups: seq<Group>, g: Group)
    requires g in CarpoolGroups(groups)
    ensures SubjectOf(g) != []
    ensures exists i :: 0 <= i < |Words| && Contains(CaseFold(SubjectOf(g)), CaseFold(Words[i]))
  {
    var i :| 0 <= i < |Words| && Contains(CaseFold(SubjectOf(g)), FoldAll(Words)[i]);
    assert FoldAll(Words)[i] == CaseFold(Words[i]);
  }

  /** Exclusion overrides inclusion: a subject containing "LDO" in any
      casing ("LDO", "ldo", "Ldo", ...) is never returned, whatever
      inclusion keywords it also contains. */
  lemma ExclusionOverridesInclusion(groups: seq<Group>, g: Group, w: string)
    requires CaseFold(w) == CaseFold("LDO")
    requires Contains(SubjectOf(g), w)
    ensures g !in CarpoolGroups(groups)
  {
    ContainsCaseFold(SubjectOf(g), w);
    FoldedKeywords();
    assert Contains(CaseFold(SubjectOf(g)), FoldAll(ExcludeWords)[0]);
  }

  /** Case-insensitive matching: a group whose subject contains an inclusion
      keyword in any casing and nothing that folds to "ldo" is returned. */
  lemma KeywordInAnyCaseIncluded(groups: seq<Group>, g: Group, i: int, w: string)
    requires g in groups
    requires 0 <= i < |Words| && CaseFold(w) == CaseFold(Words[i])
    requires Contains(SubjectOf(g), w)
    requires !Contains(CaseFold(SubjectOf(g)), "ldo")
    ensures g in CarpoolGroups(groups)
  {
    ContainsCaseFold(SubjectOf(g), w);
    FoldedKeywords();
    var subject := CaseFold(SubjectOf(g));
    assert Contains(subject, FoldAll(Words)[i]);
    CarpoolGroupsSelects(groups, g);
  }

  /** The fourth keyword is the mis-encoded "solidÃ¡ria", not "solidária":
      a group whose subject is "Solidária" alone matches neither spelling
      of the keyword, nor any other keyword, and is not returned. */
  lemma AccentedSolidariaNotMatched(g: Group)
    requires g.subject == Some("Solid\U{E1}ria")
    ensures !IsCarpool(g)
  {
    var subject := CaseFold(SubjectOf(g));
    assert subject == "solid\U{E1}ria";
    FoldedKeywords();
    var words := FoldAll(Words);
    if i :| 0 <= i < |words| && Contains(subject, words[i]) {
      if i == 0 {
        ContainsChar(subject, words[0], 0);
      } else if i == 1 {
        ContainsChar(subject, words[1], 2);
      } else if i == 2 {
        ContainsSameLength(subject, words[2]);
      } else if i == 4 {
        ContainsChar(subject, words[4], 0);
      }  // i == 3: the folded fourth keyword is longer than the subject
    }
  }

  /** A group with a missing or empty subject is always dropped. */
  lemma NoSubjectDropped(groups: seq<Group>, g: Group)
    requires g.subject.None? || g.subject == Some("")
    ensures g !in CarpoolGroups(groups)
  {
  }

  /** What comes back is the input with groups deleted, in the original
      order, and no longer than it. */
  lemma CarpoolGroupsPreservesOrder(groups: seq<Group>)
    ensures IsSubsequence(CarpoolGroups(groups), groups)
    ensures |CarpoolGroups(groups)| <= |groups|
  {
    FilterIsSubsequence(IsCarpool, groups);
  }

  /** Classifying the comprehension's own output changes nothing. This holds
      for the comprehension only: when its output is empty, calling
      `get_carpool_groups` on it again fetches all groups over the network
      and classifies those instead. */
  lemma CarpoolGroupsIdempotent(groups: seq<Group>)
    ensures CarpoolGroups(CarpoolGroups(groups)) == CarpoolGroups(groups)
  {
    FilterIdempotent(IsCarpool, groups);
  }
}
