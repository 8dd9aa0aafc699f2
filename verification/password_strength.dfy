/** The password-strength meter shared by the registration and the
    password-reset forms. An empty password scores 0; any other scores one
    point for each of four criteria, so the score lies in 0..4. The score
    selects a label, a colour, and how many of the four bar segments are
    filled. */
module PasswordStrength {

  const MinLength: nat := 8

  predicate IsLower(c: char) { 'a' <= c <= 'z' }
  predicate IsUpper(c: char) { 'A' <= c <= 'Z' }
  predicate IsDigit(c: char) { '0' <= c <= '9' }

  /** `/[^A-Za-z0-9]/`: any character that is not an ASCII letter or digit. */
  predicate IsSymbol(c: char) { !IsLower(c) && !IsUpper(c) && !IsDigit(c) }

  predicate HasLower(p: string) { exists i :: 0 <= i < |p| && IsLower(p[i]) }
  predicate HasUpper(p: string) { exists i :: 0 <= i < |p| && IsUpper(p[i]) }
  predicate HasDigit(p: string) { exists i :: 0 <= i < |p| && IsDigit(p[i]) }
  predicate HasSymbol(p: string) { exists i :: 0 <= i < |p| && IsSymbol(p[i]) }

  datatype Criterion = LongEnough | MixedCase | Digit | Symbol

  /** The criteria a password meets. */
  ghost function Met(p: string): set<Criterion> {
    (if |p| >= MinLength then {LongEnough} else {})
    + (if HasLower(p) && HasUpper(p) then {MixedCase} else {})
    + (if HasDigit(p) then {Digit} else {})
    + (if HasSymbol(p) then {Symbol} else {})
  }

  function Point(b: bool): nat { if b then 1 else 0 }

  function Strength(p: string): (r: nat)
    ensures r <= 4
    ensures |p| == 0 ==> r == 0
  {
    if |p| == 0 then 0
    else
      Point(|p| >= MinLength) + Point(HasLower(p) && HasUpper(p))
      + Point(HasDigit(p)) + Point(HasSymbol(p))
  }

  /** A non-empty password scores exactly the number of criteria it meets. */
  lemma StrengthCountsCriteria(p: string)
    requires |p| > 0
    ensures Strength(p) == |Met(p)|
  {
    CountCriteria(|p| >= MinLength, HasLower(p) && HasUpper(p), HasDigit(p), HasSymbol(p));
  }

  /** Four distinct criteria, each present or not, number the points they score. */
  lemma {:induction false} CountCriteria(b1: bool, b2: bool, b3: bool, b4: bool)
    ensures |(if b1 then {LongEnough} else {}) + (if b2 then {MixedCase} else {})
             + (if b3 then {Digit} else {}) + (if b4 then {Symbol} else {})|
            == Point(b1) + Point(b2) + Point(b3) + Point(b4)
  {
    var s1: set<Criterion> := if b1 then {LongEnough} else {};
    var s2 := s1 + (if b2 then {MixedCase} else {});
    var s3 := s2 + (if b3 then {Digit} else {});
    var s4 := s3 + (if b4 then {Symbol} else {});
    assert s1 <= {LongEnough};
    if b2 { AddFresh(s1, MixedCase); }
    assert s2 <= {LongEnough, MixedCase};
    if b3 { AddFresh(s2, Digit); }
    assert s3 <= {LongEnough, MixedCase, Digit};
    if b4 { AddFresh(s3, Symbol); }
  }

  lemma AddFresh(s: set<Criterion>, x: Criterion)
    requires x !in s
    ensures |s + {x}| == |s| + 1
  {
  }

  /** Appending characters keeps every criterion that was met. */
  lemma {:induction false} MetGrows(p: string, q: string)
    ensures Met(p) <= Met(p + q)
  {
    var pq := p + q;
    if HasLower(p) { var i :| 0 <= i < |p| && IsLower(p[i]); assert pq[i] == p[i]; }
    if HasUpper(p) { var i :| 0 <= i < |p| && IsUpper(p[i]); assert pq[i] == p[i]; }
    if HasDigit(p) { var i :| 0 <= i < |p| && IsDigit(p[i]); assert pq[i] == p[i]; }
    if HasSymbol(p) { var i :| 0 <= i < |p| && IsSymbol(p[i]); assert pq[i] == p[i]; }
  }

  /** Typing more characters never lowers the score. */
  lemma StrengthMonotone(p: string, q: string)
    ensures Strength(p) <= Strength(p + q)
  {
    if |p| > 0 {
      MetGrows(p, q);
      StrengthCountsCriteria(p);
      StrengthCountsCriteria(p + q);
      assert |Met(p)| <= |Met(p + q)| by {
        SubsetSize(Met(p), Met(p + q));
      }
    }
  }

  lemma {:induction false} SubsetSize(a: set<Criterion>, b: set<Criterion>)
    requires a <= b
    ensures |a| <= |b|
  {
    assert b == a + (b - a);
    assert a !! (b - a);
  }

  /** A password meeting every criterion scores 4. */
  lemma StrongPassword(p: string)
    requires |p| >= MinLength && HasLower(p) && HasUpper(p) && HasDigit(p) && HasSymbol(p)
    ensures Strength(p) == 4
  {
  }

  /** The registration form's labels for scores 0..4. */
  const RegisterLabels: seq<string> := ["Too short", "Weak", "Fair", "Good", "Strong"]

  /** The reset form's labels for scores 0..4, as translation keys. */
  const ResetLabelKeys: seq<string> := ["auth.tooShort", "auth.weak", "auth.medium", "auth.good", "auth.strong"]

  /** Five distinct, non-empty labels, one per score. */
  predicate LabelTable(labels: seq<string>) {
    && |labels| == 5
    && (forall i :: 0 <= i < 5 ==> labels[i] != "")
    && (forall i, j :: 0 <= i < j < 5 ==> labels[i] != labels[j])
  }

  /** The label of a score, looked up in a five-entry table; `""` is the
      default branch of both forms' `switch`. */
  function Label(labels: seq<string>, score: int): (r: string)
    requires LabelTable(labels)
    ensures 0 <= score <= 4 <==> r != ""
    ensures r != "" ==> r == labels[score]
  {
    if 0 <= score <= 4 then labels[score] else ""
  }

  const Unfilled: string := "bg-white/10"

  /** The bar colour; the default branch repeats the colour of score 0. */
  function Colour(score: int): (r: string)
    ensures r != Unfilled
    ensures !(0 <= score <= 4) ==> r == "bg-stone-500"
  {
    match score
    case 0 => "bg-stone-500"
    case 1 => "bg-red-500"
    case 2 => "bg-orange-500"
    case 3 => "bg-yellow-500"
    case 4 => "bg-emerald-500"
    case _ => "bg-stone-500"
  }

  /** Scores 0..4 have five different labels, label keys and colours. */
  lemma ScoresDistinguished(a: int, b: int)
    requires 0 <= a <= 4 && 0 <= b <= 4 && a != b
    ensures LabelTable(RegisterLabels) && Label(RegisterLabels, a) != Label(RegisterLabels, b)
    ensures LabelTable(ResetLabelKeys) && Label(ResetLabelKeys, a) != Label(ResetLabelKeys, b)
    ensures Colour(a) != Colour(b)
  {
  }

  /** A score never reaches the default branches. */
  lemma DefaultUnreachable(p: string)
    ensures LabelTable(RegisterLabels) && Label(RegisterLabels, Strength(p)) != ""
    ensures LabelTable(ResetLabelKeys) && Label(ResetLabelKeys, Strength(p)) != ""
  {
  }

  /** The four segments, for steps 1..4: the segment at index `i` (step
      `i + 1`) takes the colour when the score is at least its step. */
  function Segments(score: int): (r: seq<string>)
    ensures |r| == 4
    ensures forall i :: 0 <= i < 4 ==> (r[i] == Colour(score) <==> score >= i + 1)
  {
    var c := Colour(score);
    assert c != Unfilled;
    seq(4, i requires 0 <= i < 4 => if score >= i + 1 then c else Unfilled)
  }

  /** A shown meter: its label and its four segments. */
  datatype Meter = Meter(text: string, segments: seq<string>)

  function CountFilled(s: seq<string>): (n: nat)
    ensures n <= |s|
  {
    if |s| == 0 then 0 else Point(s[0] != Unfilled) + CountFilled(s[1..])
  }

  /** Exactly `strength` segments are filled. */
  lemma FilledSegments(p: string)
    ensures CountFilled(Segments(Strength(p))) == Strength(p)
  {
    var n := Strength(p);
    var s := Segments(n);
    assert CountFilled(s[3..]) == Point(n >= 4) by {
      assert s[3..][1..] == [];
    }
    assert CountFilled(s[2..]) == Point(n >= 3) + Point(n >= 4) by {
      assert s[2..][1..] == s[3..];
    }
    assert CountFilled(s[1..]) == Point(n >= 2) + Point(n >= 3) + Point(n >= 4) by {
      assert s[1..][1..] == s[2..];
    }
  }
}
