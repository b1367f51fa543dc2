/**
 * The question record as it is loaded from the question bank, and the two
 * pure decisions the page takes about it: which answer choices are shown,
 * and how a reviewed answer is classified.
 */
module Questions {
  import opened Wrappers

  /** A choice key or a selected answer ("A" … "E"); JavaScript compares them as strings. */
  type Label = string

  /** The JSON value stored under a choice key. */
  datatype ChoiceValue = Null | Text(s: string) | Number(n: int)

  /**
   * One question of the bank. `answer` is optional because the page compares it
   * with `===` against a possibly `undefined` user answer; `choices` omits the
   * labels that are absent from the record.
   */
  datatype Question = Question(
    id: int,
    points: int,
    question: string,
    image: Option<string>,
    choices: map<Label, ChoiceValue>,
    answer: Option<Label>)

  /** The sum of the point values of `qs`. */
  function TotalPoints(qs: seq<Question>): int
  {
    if qs == [] then 0 else qs[0].points + TotalPoints(qs[1..])
  }

  lemma {:induction false} TotalPointsAppend(a: seq<Question>, b: seq<Question>)
    ensures TotalPoints(a + b) == TotalPoints(a) + TotalPoints(b)
  {
    if a == [] {
      assert a + b == b;
    } else {
      assert (a + b)[0] == a[0];
      assert (a + b)[1..] == a[1..] + b;
      TotalPointsAppend(a[1..], b);
    }
  }

  /** A list of questions that are all worth `p` points is worth `p` times its length. */
  lemma {:induction false} TotalPointsUniform(qs: seq<Question>, p: int)
    requires forall i :: 0 <= i < |qs| ==> qs[i].points == p
    ensures TotalPoints(qs) == p * |qs|
  {
    if qs != [] {
      TotalPointsUniform(qs[1..], p);
    }
  }

  /** The labels the page offers, in display order. */
  const ChoiceLabels: seq<Label> := ["A", "B", "C", "D", "E"]

  /** The characters removed by `String.prototype.trim`: white space and line terminators. */
  predicate IsTrimmed(c: char)
  {
    c in {'\t', '\n', '\U{0B}', '\U{0C}', '\r', ' ', '\U{A0}', '\U{1680}',
          '\U{2000}', '\U{2001}', '\U{2002}', '\U{2003}', '\U{2004}', '\U{2005}',
          '\U{2006}', '\U{2007}', '\U{2008}', '\U{2009}', '\U{200A}',
          '\U{2028}', '\U{2029}', '\U{202F}', '\U{205F}', '\U{3000}', '\U{FEFF}'}
  }

  /** `s` with its leading white space removed. */
  function TrimStart(s: string): (r: string)
    ensures |r| <= |s| && r == s[|s| - |r|..]
    ensures r == [] || !IsTrimmed(r[0])
    ensures forall i :: 0 <= i < |s| - |r| ==> IsTrimmed(s[i])
  {
    if s == [] || !IsTrimmed(s[0]) then s else TrimStart(s[1..])
  }

  /** `s` with its trailing white space removed. */
  function TrimEnd(s: string): (r: string)
    ensures |r| <= |s| && r == s[..|r|]
    ensures r == [] || !IsTrimmed(r[|r| - 1])
    ensures forall i :: |r| <= i < |s| ==> IsTrimmed(s[i])
  {
    if s == [] || !IsTrimmed(s[|s| - 1]) then s else TrimEnd(s[..|s| - 1])
  }

  /** `String.prototype.trim`. */
  function Trim(s: string): string
  {
    TrimEnd(TrimStart(s))
  }

  /** A string is blank when it holds nothing but trimmed characters. */
  predicate IsBlank(s: string)
  {
    forall i :: 0 <= i < |s| ==> IsTrimmed(s[i])
  }

  lemma {:induction false} TrimStartOfBlank(s: string)
    requires IsBlank(s)
    ensures TrimStart(s) == []
  {
    if s != [] {
      TrimStartOfBlank(s[1..]);
    }
  }

  /** `s.trim() === ''` exactly when `s` is blank. */
  lemma TrimEmptyIffBlank(s: string)
    ensures Trim(s) == "" <==> IsBlank(s)
  {
    if IsBlank(s) {
      TrimStartOfBlank(s);
    } else {
      var t := TrimStart(s);
      var k := |s| - |t|;
      var i :| 0 <= i < |s| && !IsTrimmed(s[i]);
      assert t[i - k] == s[i];
    }
  }

  /**
   * Whether the choice under `key` is rendered: it must be present, not
   * `null`, and not a blank string (numbers such as 0 are shown).
   */
  function ChoiceShown(choices: map<Label, ChoiceValue>, key: Label): (shown: bool)
    ensures shown <==> key in choices && choices[key] != Null &&
                       !(choices[key].Text? && IsBlank(choices[key].s))
  {
    if key !in choices then false
    else match choices[key]
      case Null => false
      case Text(s) => TrimEmptyIffBlank(s); Trim(s) != ""
      case Number(_) => true
  }

  /** The labels, taken in order from `labels`, whose choices are shown. */
  function ShownAmong(choices: map<Label, ChoiceValue>, labels: seq<Label>): (r: seq<Label>)
    ensures |r| <= |labels|
    ensures forall l :: l in r <==> l in labels && ChoiceShown(choices, l)
  {
    if labels == [] then []
    else (if ChoiceShown(choices, labels[0]) then [labels[0]] else [])
         + ShownAmong(choices, labels[1..])
  }

  /** No element of `s` occurs twice. */
  predicate NoRepeats<T(==)>(s: seq<T>)
  {
    forall i, j :: 0 <= i < j < |s| ==> s[i] != s[j]
  }

  /** The first position of `x` in `s`. */
  function IndexIn<T(==)>(s: seq<T>, x: T): (k: nat)
    requires x in s
    ensures k < |s| && s[k] == x
    ensures forall i :: 0 <= i < k ==> s[i] != x
  {
    if s[0] == x then 0 else 1 + IndexIn(s[1..], x)
  }

  /**
   * Every element of `r` occurs in `labels`, and the positions in `labels` of
   * the elements of `r` strictly increase: `r` keeps the order of `labels`
   * and holds nothing twice.
   */
  predicate InOrderOf<T(==)>(r: seq<T>, labels: seq<T>)
  {
    && (forall x :: x in r ==> x in labels)
    && forall i, j :: 0 <= i < j < |r| ==> IndexIn(labels, r[i]) < IndexIn(labels, r[j])
  }

  /** Positions in the tail of a repeat-free sequence are one less than in the whole. */
  lemma IndexInTail<T>(labels: seq<T>, x: T)
    requires labels != [] && NoRepeats(labels) && x in labels[1..]
    ensures IndexIn(labels, x) == 1 + IndexIn(labels[1..], x)
  {
    var m := IndexIn(labels[1..], x);
    assert labels[m + 1] == x;
  }

  /** An ordered selection from the tail stays ordered within the whole. */
  lemma InOrderOfTail<T>(r: seq<T>, labels: seq<T>)
    requires labels != [] && NoRepeats(labels) && InOrderOf(r, labels[1..])
    ensures InOrderOf(r, labels)
    ensures forall x :: x in r ==> x != labels[0]
  {
    forall x | x in r
      ensures x in labels && x != labels[0] && IndexIn(labels, x) == 1 + IndexIn(labels[1..], x)
    {
      IndexInTail(labels, x);
    }
  }

  /** The head followed by an ordered selection from the tail is ordered. */
  lemma InOrderOfCons<T>(r: seq<T>, labels: seq<T>)
    requires labels != [] && NoRepeats(labels) && InOrderOf(r, labels[1..])
    ensures InOrderOf([labels[0]] + r, labels)
  {
    InOrderOfTail(r, labels);
    var r' := [labels[0]] + r;
    forall i, j | 0 <= i < j < |r'|
      ensures IndexIn(labels, r'[i]) < IndexIn(labels, r'[j])
    {
      assert r'[j] == r[j - 1] && r[j - 1] in r;
      if i > 0 {
        assert r'[i] == r[i - 1] && r[i - 1] in r;
      }
    }
  }

  /** The shown labels keep the order of `labels` and occur once each. */
  lemma {:induction false} ShownAmongInOrder(choices: map<Label, ChoiceValue>, labels: seq<Label>)
    requires NoRepeats(labels)
    ensures InOrderOf(ShownAmong(choices, labels), labels)
  {
    if labels != [] {
      var tail := labels[1..];
      assert NoRepeats(tail);
      ShownAmongInOrder(choices, tail);
      var rest := ShownAmong(choices, tail);
      if ChoiceShown(choices, labels[0]) {
        InOrderOfCons(rest, labels);
      } else {
        InOrderOfTail(rest, labels);
      }
    }
  }

  /** The choices of `q` the page renders, each once, in the order A … E. */
  function VisibleChoices(q: Question): (r: seq<Label>)
    ensures |r| <= 5
    ensures forall l :: l in r <==> l in ChoiceLabels && ChoiceShown(q.choices, l)
    ensures InOrderOf(r, ChoiceLabels)
  {
    assert NoRepeats(ChoiceLabels);
    ShownAmongInOrder(q.choices, ChoiceLabels);
    ShownAmong(q.choices, ChoiceLabels)
  }

  /** How the review screen labels one question. */
  datatype Verdict = Correct | Wrong | NotAnswered

  /**
   * The review classification: correct when the user answer is identical to the
   * correct one (`undefined === undefined` included), otherwise wrong when the
   * user answer is truthy (a non-empty string), otherwise not answered.
   */
  function Classify(userAnswer: Option<Label>, correctAnswer: Option<Label>): (v: Verdict)
    ensures v == Correct <==> userAnswer == correctAnswer
    ensures v == Wrong <==> userAnswer != correctAnswer && userAnswer.Some? && userAnswer.value != ""
  {
    if userAnswer == correctAnswer then Correct
    else if userAnswer.Some? && userAnswer.value != "" then Wrong
    else NotAnswered
  }
}
