/** The candidate form of the dashboard: what it shows when it opens (empty for a
    new candidate, filled from the row for an edit) and the payload it sends on
    submit, with the comma-separated lists split, trimmed and cleaned. */
module CandidateForm {
  import opened Values

  /** The form's ten text inputs. */
  datatype FormData = FormData(
    full_name: string,
    email: string,
    birthdate: string,
    gender: string,
    experience: string,
    address: string,
    skills: string,
    strengths: string,
    weaknesses: string,
    fit_score: string)

  const EmptyForm := FormData("", "", "", "", "", "", "", "", "", "")

  datatype FormMode = Create | Edit

  /** The body sent to the candidates API. The text inputs travel as they are; the
      date travels as the date built from its text (kept here as that text); a
      number that `parseInt` cannot read is NaN, which JSON sends as null. */
  datatype CandidatePayload = CandidatePayload(
    full_name: string,
    email: string,
    gender: string,
    address: string,
    birthdate: Option<string>,
    experience: Option<int>,
    fit_score: Option<int>,
    skills: seq<string>,
    strengths: seq<string>,
    weaknesses: seq<string>)

  /** `String.prototype.split` on a one-character separator: the pieces between
      the separators, so there is always one more piece than separators. */
  function Split(s: string, sep: char): (r: seq<string>)
    ensures |r| >= 1
    ensures forall i | 0 <= i < |r| :: sep !in r[i]
    decreases |s|
  {
    if s == [] then [""]
    else if s[0] == sep then [""] + Split(s[1..], sep)
    else
      var rest := Split(s[1..], sep);
      [[s[0]] + rest[0]] + rest[1..]
  }

  /** `Array.prototype.join`. */
  function Join(xs: seq<string>, sep: string): string
    decreases |xs|
  {
    if xs == [] then ""
    else if |xs| == 1 then xs[0]
    else xs[0] + sep + Join(xs[1..], sep)
  }

  /** Joining the pieces of a split with the separator gives back the text. */
  lemma {:induction false} JoinSplit(s: string, sep: char)
    ensures Join(Split(s, sep), [sep]) == s
    decreases |s|
  {
    if s != [] {
      JoinSplit(s[1..], sep);
      var rest := Split(s[1..], sep);
      if s[0] == sep {
        assert Split(s, sep) == [""] + rest;
        assert s == [sep] + s[1..];
      } else {
        assert Split(s, sep) == [[s[0]] + rest[0]] + rest[1..];
        if |rest| == 1 {
          assert s == [s[0]] + rest[0];
        } else {
          assert Join(rest, [sep]) == rest[0] + [sep] + Join(rest[1..], [sep]);
          assert s == [s[0]] + s[1..];
        }
      }
    }
  }

  /** The white space `trim` removes (the ASCII part of it). */
  predicate IsSpace(ch: char) {
    ch == ' ' || ch == '\t' || ch == '\n' || ch == '\r' || ch == 11 as char || ch == 12 as char
  }

  predicate AllSpace(s: string) {
    forall i | 0 <= i < |s| :: IsSpace(s[i])
  }

  /** No white space at either end. */
  predicate Trimmed(s: string) {
    s == [] || (!IsSpace(s[0]) && !IsSpace(s[|s| - 1]))
  }

  /** `trim` at the start: the suffix that is left after the leading white space. */
  function TrimStart(s: string): (r: string)
    ensures r == [] || !IsSpace(r[0])
    ensures |r| <= |s| && r == s[|s| - |r|..]
    decreases |s|
  {
    if s != [] && IsSpace(s[0]) then TrimStart(s[1..]) else s
  }

  /** `trim` at the end: the prefix that is left before the trailing white space. */
  function TrimEnd(s: string): (r: string)
    ensures r == [] || !IsSpace(r[|r| - 1])
    ensures |r| <= |s| && r == s[..|r|]
    decreases |s|
  {
    if s != [] && IsSpace(s[|s| - 1]) then TrimEnd(s[..|s| - 1]) else s
  }

  /** `trim`: the text without the white space at its ends. */
  function Trim(s: string): (r: string)
    ensures Trimmed(r)
  {
    var t := TrimStart(s);
    var r := TrimEnd(t);
    assert r != [] ==> r[0] == t[0];
    r
  }

  /** What `TrimStart` cuts off is white space. */
  lemma {:induction false} TrimStartCutsSpace(s: string)
    ensures AllSpace(s[..|s| - |TrimStart(s)|])
    decreases |s|
  {
    if s != [] && IsSpace(s[0]) {
      TrimStartCutsSpace(s[1..]);
      var r := TrimStart(s);
      assert s[..|s| - |r|] == [s[0]] + s[1..][..|s| - 1 - |r|];
    }
  }

  /** What `TrimEnd` cuts off is white space. */
  lemma {:induction false} TrimEndCutsSpace(s: string)
    ensures AllSpace(s[|TrimEnd(s)|..])
    decreases |s|
  {
    if s != [] && IsSpace(s[|s| - 1]) {
      TrimEndCutsSpace(s[..|s| - 1]);
      var r := TrimEnd(s);
      assert s[|r|..] == s[..|s| - 1][|r|..] + [s[|s| - 1]];
    }
  }

  /** `trim` keeps a slice of its input: the part of `s` that starts after the
      leading white space (which `TrimStartCutsSpace` shows is all white space),
      of the length of the result. */
  lemma TrimIsSlice(s: string)
    ensures var k := |s| - |TrimStart(s)|;
      k + |Trim(s)| <= |s| && Trim(s) == s[k..k + |Trim(s)|]
  {
    var t := TrimStart(s);
    SliceOfSuffix(s, |s| - |t|, t, TrimEnd(t));
  }

  /** `trim` cuts off white space and nothing else: besides the leading white
      space (`TrimIsSlice`), everything after the slice it keeps is white space. */
  lemma TrimCutsOnlySpace(s: string)
    ensures AllSpace(s[|s| - |TrimStart(s)| + |Trim(s)|..])
  {
    var t := TrimStart(s);
    var r := TrimEnd(t);
    TrimEndCutsSpace(t);
    CutFromSuffix(s, |s| - |t|, t, r);
  }

  /** A prefix `r` of the suffix `s[k..]` is the slice of `s` from `k`. */
  lemma SliceOfSuffix(s: string, k: nat, t: string, r: string)
    requires k <= |s| && t == s[k..]
    requires |r| <= |t| && r == t[..|r|]
    ensures k + |r| <= |s| && r == s[k..k + |r|]
  {
  }

  /** A prefix `r` of the suffix `s[k..]`, followed there by white space only, is
      the slice of `s` from `k`, followed in `s` by white space only. */
  lemma CutFromSuffix(s: string, k: nat, t: string, r: string)
    requires k <= |s| && t == s[k..]
    requires |r| <= |t| && r == t[..|r|] && AllSpace(t[|r|..])
    ensures k + |r| <= |s| && r == s[k..k + |r|] && AllSpace(s[k + |r|..])
  {
    assert t[|r|..] == s[k + |r|..];
  }

  /** `trim` only removes characters. */
  lemma TrimKeepsOut(s: string, c: char)
    requires c !in s
    ensures c !in Trim(s)
  {
    var t := TrimStart(s);
    assert forall ch | ch in t :: ch in s;
    var r := TrimEnd(t);
    assert forall ch | ch in r :: ch in t;
  }

  lemma TrimStartOf(w: string, x: string)
    requires AllSpace(w)
    requires x == [] || !IsSpace(x[0])
    ensures TrimStart(w + x) == x
    decreases |w|
  {
    if w != [] {
      assert (w + x)[1..] == w[1..] + x;
      TrimStartOf(w[1..], x);
    } else {
      assert w + x == x;
    }
  }

  lemma {:induction false} TrimEndOf(x: string, v: string)
    requires x == [] || !IsSpace(x[|x| - 1])
    requires AllSpace(v)
    ensures TrimEnd(x + v) == x
    decreases |v|
  {
    if v == [] {
      assert x + v == x;
    } else {
      assert (x + v)[..|x + v| - 1] == x + v[..|v| - 1];
      TrimEndOf(x, v[..|v| - 1]);
    }
  }

  /** Trimming white space and a trimmed word gives the word; in particular
      `trim` leaves trimmed text alone and turns white space into "". */
  lemma TrimSpacedWord(w: string, x: string)
    requires AllSpace(w) && Trimmed(x)
    ensures Trim(w + x) == x
  {
    TrimStartOf(w, x);
    TrimEndOf(x, []);
    assert x + [] == x;
  }

  /** White space on both sides of trimmed text is removed, and nothing else. */
  lemma TrimPadded(w: string, x: string, v: string)
    requires AllSpace(w) && Trimmed(x) && AllSpace(v)
    ensures Trim(w + x + v) == x
  {
    var s := w + x + v;
    if x != [] {
      assert s == w + (x + v);
      TrimStartOf(w, x + v);
      TrimEndOf(x, v);
    }
  }

  /** `.map((s) => s.trim()).filter(Boolean)` over the pieces, in order. */
  function CleanPieces(pieces: seq<string>): (r: seq<string>)
    ensures forall i | 0 <= i < |r| :: r[i] != "" && Trimmed(r[i])
    decreases |pieces|
  {
    if pieces == [] then []
    else
      var t := Trim(pieces[0]);
      (if t != "" then [t] else []) + CleanPieces(pieces[1..])
  }

  /** A comma-separated input as the list it is sent as. */
  function SplitList(text: string): (r: seq<string>)
    ensures forall i | 0 <= i < |r| :: r[i] != "" && Trimmed(r[i]) && ',' !in r[i]
  {
    var pieces := Split(text, ',');
    var r := CleanPieces(pieces);
    CleanKeepsCharacters(pieces, ',');
    r
  }

  lemma {:induction false} CleanKeepsCharacters(pieces: seq<string>, c: char)
    requires forall i | 0 <= i < |pieces| :: c !in pieces[i]
    ensures forall i | 0 <= i < |CleanPieces(pieces)| :: c !in CleanPieces(pieces)[i]
    decreases |pieces|
  {
    if pieces != [] {
      CleanKeepsCharacters(pieces[1..], c);
      assert c !in pieces[0];
      TrimKeepsOut(pieces[0], c);
      var t := Trim(pieces[0]);
      AvoidsInBoth(if t != "" then [t] else [], CleanPieces(pieces[1..]), c);
    }
  }

  /** Two lists of texts that avoid `c` concatenate to one that does. */
  lemma AvoidsInBoth(a: seq<string>, b: seq<string>, c: char)
    requires forall i | 0 <= i < |a| :: c !in a[i]
    requires forall i | 0 <= i < |b| :: c !in b[i]
    ensures forall i | 0 <= i < |a + b| :: c !in (a + b)[i]
  {
  }

  /** An element the form can carry in a list input and get back unchanged. */
  predicate ListWord(x: string) {
    x != "" && Trimmed(x) && ',' !in x
  }

  lemma {:induction false} SplitNoSeparator(s: string, sep: char)
    requires sep !in s
    ensures Split(s, sep) == [s]
    decreases |s|
  {
    if s != [] {
      SplitNoSeparator(s[1..], sep);
      assert s == [s[0]] + s[1..];
    }
  }

  lemma {:induction false} SplitAtFirst(a: string, b: string, sep: char)
    requires sep !in a
    ensures Split(a + [sep] + b, sep) == [a] + Split(b, sep)
    decreases |a|
  {
    if a == [] {
      assert a + [sep] + b == [sep] + b;
      assert ([sep] + b)[1..] == b;
    } else {
      assert (a + [sep] + b)[1..] == a[1..] + [sep] + b;
      SplitAtFirst(a[1..], b, sep);
      assert a == [a[0]] + a[1..];
    }
  }

  lemma CleanFront(p: string, ps: seq<string>)
    ensures CleanPieces([p] + ps) == (if Trim(p) != "" then [Trim(p)] else []) + CleanPieces(ps)
  {
    assert ([p] + ps)[1..] == ps;
  }

  lemma NoCommaIn(w: string, x: string)
    requires AllSpace(w) && ',' !in x
    ensures ',' !in w + x
  {
  }

  /** The last word of a joined list, after white space, splits back alone. */
  lemma SplitLastWord(w: string, x: string)
    requires AllSpace(w)
    requires x == "" || ListWord(x)
    ensures CleanPieces(Split(w + x, ',')) == if x == "" then [] else [x]
  {
    NoCommaIn(w, x);
    SplitNoSeparator(w + x, ',');
    assert Trimmed(x);
    TrimSpacedWord(w, x);
    assert [w + x] + [] == [w + x];
    CleanFront(w + x, []);
    assert CleanPieces([]) == [];
  }

  /** White space followed by a joined list splits back into that list. */
  lemma {:induction false} SplitJoinFrom(w: string, xs: seq<string>)
    requires AllSpace(w)
    requires forall i | 0 <= i < |xs| :: ListWord(xs[i])
    ensures CleanPieces(Split(w + Join(xs, ", "), ',')) == xs
    decreases |xs|
  {
    if xs == [] {
      SplitLastWord(w, "");
      assert w + Join(xs, ", ") == w + "";
    } else if |xs| == 1 {
      SplitLastWord(w, xs[0]);
    } else {
      assert AllSpace(" ");
      SplitJoinFrom(" ", xs[1..]);
      SplitJoinCons(w, xs);
    }
  }

  /** A joined list of two or more words, after white space, splits back into
      that list once the rest of the list, after one space, does. */
  lemma SplitJoinCons(w: string, xs: seq<string>)
    requires AllSpace(w) && |xs| >= 2 && ListWord(xs[0])
    requires CleanPieces(Split(" " + Join(xs[1..], ", "), ',')) == xs[1..]
    ensures CleanPieces(Split(w + Join(xs, ", "), ',')) == xs
  {
    var joined := Join(xs[1..], ", ");
    JoinFirst(w, xs);
    SplitFirstWord(w, xs[0], " " + joined);
    HeadTail(xs);
  }

  /** A joined list of two or more words, after `w`, is `w`, the first word, the
      separating comma and the rest after one space. */
  lemma JoinFirst(w: string, xs: seq<string>)
    requires |xs| >= 2
    ensures w + Join(xs, ", ") == (w + xs[0]) + [','] + (" " + Join(xs[1..], ", "))
  {
  }

  lemma HeadTail(xs: seq<string>)
    requires xs != []
    ensures [xs[0]] + xs[1..] == xs
  {
  }

  /** The first word of a joined list, after white space, splits off alone. */
  lemma SplitFirstWord(w: string, x: string, tail: string)
    requires AllSpace(w) && ListWord(x)
    ensures CleanPieces(Split((w + x) + [','] + tail, ',')) == [x] + CleanPieces(Split(tail, ','))
  {
    NoCommaIn(w, x);
    SplitAtFirst(w + x, tail, ',');
    CleanFront(w + x, Split(tail, ','));
    TrimSpacedWord(w, x);
  }

  /** Prefill then submit gives a list back: joining with ", " and splitting on
      commas round-trips every list of non-empty, trimmed, comma-free words. */
  lemma ListRoundTrip(xs: seq<string>)
    requires forall i | 0 <= i < |xs| :: ListWord(xs[i])
    ensures SplitList(Join(xs, ", ")) == xs
  {
    SplitJoinFrom("", xs);
    assert "" + Join(xs, ", ") == Join(xs, ", ");
  }

  /** `x || ""` on an optional text. */
  function TextOr(o: Option<string>): string {
    match o
    case Some(s) => s
    case None => ""
  }

  /** The edit prefill. `isoDay` stands for the date's ISO day text and `showInt`
      for `toString` on a number. */
  function Prefill(p: Profile, isoDay: string -> string, showInt: int -> string): FormData {
    FormData(
      p.full_name,
      p.email,
      if p.birthdate.Some? && p.birthdate.value != "" then isoDay(p.birthdate.value) else "",
      TextOr(p.gender),
      if p.experience.Some? then showInt(p.experience.value) else "",
      TextOr(p.address),
      Join(p.skills, ", "),
      Join(p.strengths, ", "),
      Join(p.weaknesses, ", "),
      if p.fit_score.Some? then showInt(p.fit_score.value) else "")
  }

  /** The effect run when the form opens or its inputs change: an edit of a given
      candidate prefills it, a create empties it, anything else leaves it. */
  function OnOpen(mode: FormMode, candidate: Option<Profile>, current: FormData,
                  isoDay: string -> string, showInt: int -> string): (r: FormData)
    ensures mode == Create ==> r == EmptyForm
    ensures mode == Edit && candidate.None? ==> r == current
    ensures mode == Edit && candidate.Some? ==> r == Prefill(candidate.value, isoDay, showInt)
  {
    match mode
    case Edit => if candidate.Some? then Prefill(candidate.value, isoDay, showInt) else current
    case Create => EmptyForm
  }

  /** `x ? parseInt(x) : null`; an unreadable number is null as well. */
  function NumberOf(text: string, parseInt: string -> Option<int>): (r: Option<int>)
    ensures text == "" ==> r.None?
    ensures text != "" ==> r == parseInt(text)
  {
    if text != "" then parseInt(text) else None
  }

  /** The payload `handleSubmit` builds from the form. */
  function Payload(form: FormData, parseInt: string -> Option<int>): (r: CandidatePayload)
    ensures r.full_name == form.full_name && r.email == form.email
    ensures r.gender == form.gender && r.address == form.address
    ensures r.birthdate.None? <==> form.birthdate == ""
    ensures r.birthdate.Some? ==> r.birthdate.value == form.birthdate
    ensures r.experience.None? <==> form.experience == "" || parseInt(form.experience).None?
    ensures r.fit_score.None? <==> form.fit_score == "" || parseInt(form.fit_score).None?
    ensures r.experience == NumberOf(form.experience, parseInt)
    ensures r.fit_score == NumberOf(form.fit_score, parseInt)
    ensures r.skills == SplitList(form.skills)
    ensures r.strengths == SplitList(form.strengths)
    ensures r.weaknesses == SplitList(form.weaknesses)
    ensures forall i | 0 <= i < |r.skills| :: ListWord(r.skills[i])
    ensures forall i | 0 <= i < |r.strengths| :: ListWord(r.strengths[i])
    ensures forall i | 0 <= i < |r.weaknesses| :: ListWord(r.weaknesses[i])
  {
    CandidatePayload(
      form.full_name,
      form.email,
      form.gender,
      form.address,
      if form.birthdate != "" then Some(form.birthdate) else None,
      NumberOf(form.experience, parseInt),
      NumberOf(form.fit_score, parseInt),
      SplitList(form.skills),
      SplitList(form.strengths),
      SplitList(form.weaknesses))
  }

  /** A new candidate's form sends empty text, no numbers, no date and empty lists. */
  lemma EmptyFormSendsNothing(parseInt: string -> Option<int>)
    ensures Payload(EmptyForm, parseInt) == CandidatePayload("", "", "", "", None, None, None, [], [], [])
  {
    ListRoundTrip([]);
  }

  /** Opening a candidate for editing and saving it unchanged sends the candidate's
      own values back, when its list entries are words the form can carry and the
      number text reads back as the number: text columns (a missing gender or
      address as ""), the numbers, and the lists. */
  lemma EditWithoutChangesSendsRowBack(p: Profile, isoDay: string -> string, showInt: int -> string,
                                       parseInt: string -> Option<int>)
    requires forall i | 0 <= i < |p.skills| :: ListWord(p.skills[i])
    requires forall i | 0 <= i < |p.strengths| :: ListWord(p.strengths[i])
    requires forall i | 0 <= i < |p.weaknesses| :: ListWord(p.weaknesses[i])
    requires forall n :: showInt(n) != "" && parseInt(showInt(n)) == Some(n)
    ensures var r := Payload(Prefill(p, isoDay, showInt), parseInt);
      && r.full_name == p.full_name && r.email == p.email
      && r.gender == TextOr(p.gender) && r.address == TextOr(p.address)
      && r.experience == p.experience && r.fit_score == p.fit_score
      && r.skills == p.skills && r.strengths == p.strengths && r.weaknesses == p.weaknesses
  {
    var form := Prefill(p, isoDay, showInt);
    ListRoundTrip(p.skills);
    ListRoundTrip(p.strengths);
    ListRoundTrip(p.weaknesses);
    assert form.skills == Join(p.skills, ", ");
    assert form.strengths == Join(p.strengths, ", ");
    assert form.weaknesses == Join(p.weaknesses, ", ");
    var r := Payload(form, parseInt);
    assert r.experience == p.experience by {
      if p.experience.Some? {
        var n := p.experience.value;
        assert showInt(n) != "" && parseInt(showInt(n)) == Some(n);
      }
    }
    assert r.fit_score == p.fit_score by {
      if p.fit_score.Some? {
        var n := p.fit_score.value;
        assert showInt(n) != "" && parseInt(showInt(n)) == Some(n);
      }
    }
  }
}
