/**
  The request-body rule chain: the title is trimmed and must then be
  non-empty and at most 100 characters; a present description is trimmed and
  may hold at most 500 characters; a present status must be one of the three
  names. The result is the list of messages of the rules that fail, in the
  order the rules are declared.
 */
module Validation {
  import opened TaskModel

  const MaxTitleLength := 100
  const MaxDescriptionLength := 500

  const TitleRequiredMessage := "Title is required"
  const TitleTooLongMessage := "Title cannot exceed 100 characters"
  const DescriptionTooLongMessage := "Description cannot exceed 500 characters"
  const StatusInvalidMessage := "Status must be Pending, In Progress, or Completed"

  // -------------------------------------------------------------- trimming

  /** The characters trimming removes: the white space and line terminators of the script language. */
  predicate IsSpace(c: char) {
    || c == ' ' || c == '\t' || c == '\n' || c == '\r'
    || c == '\U{000B}' || c == '\U{000C}' || c == '\U{00A0}' || c == '\U{1680}'
    || ('\U{2000}' <= c <= '\U{200A}')
    || c == '\U{2028}' || c == '\U{2029}' || c == '\U{202F}' || c == '\U{205F}'
    || c == '\U{3000}' || c == '\U{FEFF}'
  }

  predicate AllSpace(s: string) {
    forall i :: 0 <= i < |s| ==> IsSpace(s[i])
  }

  /** Removes the white space at the front of `s`. */
  function TrimStart(s: string): (r: string)
    ensures |r| <= |s|
  {
    if |s| > 0 && IsSpace(s[0]) then TrimStart(s[1..]) else s
  }

  /** Removes the white space at the back of `s`. */
  function TrimEnd(s: string): (r: string)
    ensures |r| <= |s|
  {
    if |s| > 0 && IsSpace(s[|s| - 1]) then TrimEnd(s[..|s| - 1]) else s
  }

  /** Removes the white space at both ends of `s`: the front first, then the back. */
  function Trim(s: string): (r: string)
    ensures |r| <= |s|
  {
    TrimEnd(TrimStart(s))
  }

  /** `s` holds only white space from index `lo` up to `hi`. */
  ghost predicate SpaceBetween(s: string, lo: int, hi: int)
    requires 0 <= lo && hi <= |s|
  {
    forall k :: lo <= k < hi ==> IsSpace(s[k])
  }

  /** What `TrimStart` removes is all white space, and what it leaves is a suffix not starting with white space. */
  lemma {:induction false} TrimStartSplits(s: string)
    ensures var r := TrimStart(s);
      && r == s[|s| - |r|..]
      && SpaceBetween(s, 0, |s| - |r|)
      && (r == [] || !IsSpace(r[0]))
  {
    if |s| > 0 && IsSpace(s[0]) {
      var t := s[1..];
      TrimStartSplits(t);
      var r := TrimStart(s);
      assert r == TrimStart(t);
      assert t[|t| - |r|..] == s[|s| - |r|..];
      forall k | 0 <= k < |s| - |r| ensures IsSpace(s[k]) {
        if k > 0 { assert s[k] == t[k - 1]; }
      }
    }
  }

  /** What `TrimEnd` removes is all white space, and what it leaves is a prefix not ending with white space. */
  lemma {:induction false} TrimEndSplits(s: string)
    ensures var r := TrimEnd(s);
      && r == s[..|r|]
      && SpaceBetween(s, |r|, |s|)
      && (r == [] || !IsSpace(r[|r| - 1]))
  {
    if |s| > 0 && IsSpace(s[|s| - 1]) {
      var t := s[..|s| - 1];
      TrimEndSplits(t);
      var r := TrimEnd(s);
      assert r == TrimEnd(t);
      assert t[..|r|] == s[..|r|];
      forall k | |r| <= k < |s| ensures IsSpace(s[k]) {
        if k < |s| - 1 { assert s[k] == t[k]; }
      }
    }
  }

  /**
    `r` is what trimming `s` leaves when the white space removed in front
    ends at index `i`: `s` is white space, then `r`, then white space, and
    `r` neither starts nor ends with white space.
   */
  ghost predicate TrimsTo(s: string, r: string, i: int) {
    && 0 <= i && i + |r| <= |s|
    && (forall k :: 0 <= k < |r| ==> r[k] == s[i + k])
    && SpaceBetween(s, 0, i)
    && SpaceBetween(s, i + |r|, |s|)
    && (r == [] || (!IsSpace(r[0]) && !IsSpace(r[|r| - 1])))
  }

  /** Removing white space in front and then behind leaves a trimming split. */
  lemma SplitsCompose(s: string, m: string, r: string)
    requires |m| <= |s| && m == s[|s| - |m|..] && SpaceBetween(s, 0, |s| - |m|) && (m == [] || !IsSpace(m[0]))
    requires |r| <= |m| && r == m[..|r|] && SpaceBetween(m, |r|, |m|) && (r == [] || !IsSpace(r[|r| - 1]))
    ensures TrimsTo(s, r, |s| - |m|)
  {
    var i := |s| - |m|;
    forall k | 0 <= k < |r| ensures r[k] == s[i + k] {
      assert r[k] == m[k];
    }
    forall k | i + |r| <= k < |s| ensures IsSpace(s[k]) {
      assert s[k] == m[k - i];
    }
    assert r != [] ==> r[0] == m[0];
  }

  /** Trimming splits `s` into white space, the result, and white space. */
  lemma TrimCharacterised(s: string)
    ensures TrimsTo(s, Trim(s), |s| - |TrimStart(s)|)
  {
    TrimStartSplits(s);
    TrimEndSplits(TrimStart(s));
    SplitsCompose(s, TrimStart(s), Trim(s));
  }

  /** The trimmed text is determined by `s` alone, whatever split witnesses it. */
  lemma TrimsToUnique(s: string, r1: string, i1: int, r2: string, i2: int)
    requires TrimsTo(s, r1, i1) && TrimsTo(s, r2, i2)
    ensures r1 == r2
  {
    if r1 != [] && r2 != [] {
      assert s[i1] == r1[0] && s[i2] == r2[0];
      assert i1 == i2;
      assert s[i1 + |r1| - 1] == r1[|r1| - 1] && s[i2 + |r2| - 1] == r2[|r2| - 1];
      assert |r1| == |r2|;
    }
  }

  /** Trimming leaves nothing exactly when the text is white space throughout. */
  lemma TrimEmptyIffBlank(s: string)
    ensures Trim(s) == [] <==> AllSpace(s)
  {
    TrimCharacterised(s);
    var i := |s| - |TrimStart(s)|;
    if Trim(s) == [] {
      forall k | 0 <= k < |s| ensures IsSpace(s[k]) {
        assert SpaceBetween(s, 0, i) && SpaceBetween(s, i, |s|);
      }
    } else {
      assert Trim(s)[0] == s[i];
    }
  }

  /** A trimming split of `s` is also one of `s` with white space added at both ends. */
  lemma PaddedSplit(pre: string, s: string, post: string, r: string, i: int)
    requires AllSpace(pre) && AllSpace(post)
    requires TrimsTo(s, r, i)
    ensures TrimsTo(pre + s + post, r, |pre| + i)
  {
    var p := pre + s + post;
    forall k | 0 <= k < |r| ensures r[k] == p[|pre| + i + k] {
      assert p[|pre| + i + k] == s[i + k];
    }
    forall k | 0 <= k < |pre| + i ensures IsSpace(p[k]) {
      if k < |pre| { assert p[k] == pre[k]; } else { assert p[k] == s[k - |pre|]; }
    }
    forall k | |pre| + i + |r| <= k < |p| ensures IsSpace(p[k]) {
      if k < |pre| + |s| { assert p[k] == s[k - |pre|]; } else { assert p[k] == post[k - |pre| - |s|]; }
    }
  }

  /** White space added at either end of a text does not change what trimming it leaves. */
  lemma TrimIgnoresPadding(pre: string, s: string, post: string)
    requires AllSpace(pre) && AllSpace(post)
    ensures Trim(pre + s + post) == Trim(s)
  {
    var p := pre + s + post;
    TrimCharacterised(s);
    TrimCharacterised(p);
    var i := |s| - |TrimStart(s)|;
    PaddedSplit(pre, s, post, Trim(s), i);
    TrimsToUnique(p, Trim(p), |p| - |TrimStart(p)|, Trim(s), |pre| + i);
  }

  // ------------------------------------------------------------ validation

  datatype Field = TitleField | DescriptionField | StatusField

  datatype FieldError = FieldError(field: Field, message: string)

  /** The body fields the rules read; `None` is an absent field. */
  datatype Input = Input(title: Option<string>, description: Option<string>, status: Option<string>)

  /** The title rules; an absent title is read as the empty text. At most one of them fails. */
  function TitleErrors(title: Option<string>): (errs: seq<FieldError>)
    ensures |errs| <= 1 && (errs != [] ==> errs[0].field == TitleField)
    ensures errs == [] <==> 0 < |Trim(title.GetOr(""))| <= MaxTitleLength
    ensures FieldError(TitleField, TitleRequiredMessage) in errs <==> |Trim(title.GetOr(""))| == 0
    ensures FieldError(TitleField, TitleTooLongMessage) in errs <==> |Trim(title.GetOr(""))| > MaxTitleLength
  {
    var t := Trim(title.GetOr(""));
    (if |t| == 0 then [FieldError(TitleField, TitleRequiredMessage)] else [])
    + (if |t| > MaxTitleLength then [FieldError(TitleField, TitleTooLongMessage)] else [])
  }

  /** The description rule, skipped for an absent description. */
  function DescriptionErrors(description: Option<string>): (errs: seq<FieldError>)
    ensures |errs| <= 1 && (errs != [] ==> errs[0].field == DescriptionField)
    ensures errs != [] <==> description.Some? && |Trim(description.value)| > MaxDescriptionLength
    ensures errs != [] ==> errs[0].message == DescriptionTooLongMessage
  {
    match description
    case None => []
    case Some(d) =>
      if |Trim(d)| > MaxDescriptionLength then [FieldError(DescriptionField, DescriptionTooLongMessage)] else []
  }

  /** The status rule, skipped for an absent status; the value is compared untrimmed. */
  function StatusErrors(status: Option<string>): (errs: seq<FieldError>)
    ensures |errs| <= 1 && (errs != [] ==> errs[0].field == StatusField)
    ensures errs != [] <==> status.Some? && !IsStatusName(status.value)
    ensures errs != [] ==> errs[0].message == StatusInvalidMessage
  {
    match status
    case None => []
    case Some(s) => if IsStatusName(s) then [] else [FieldError(StatusField, StatusInvalidMessage)]
  }

  /** The position of a field's rules in the chain. */
  function Rank(f: Field): nat {
    match f
    case TitleField => 0
    case DescriptionField => 1
    case StatusField => 2
  }

  /** Messages appear in the order the fields' rules are declared, at most one per field. */
  ghost predicate InFieldOrder(errs: seq<FieldError>) {
    forall k, l :: 0 <= k < l < |errs| ==> Rank(errs[k].field) < Rank(errs[l].field)
  }

  lemma OneEachInOrder(t: seq<FieldError>, d: seq<FieldError>, s: seq<FieldError>)
    requires |t| <= 1 && (t != [] ==> t[0].field == TitleField)
    requires |d| <= 1 && (d != [] ==> d[0].field == DescriptionField)
    requires |s| <= 1 && (s != [] ==> s[0].field == StatusField)
    ensures InFieldOrder(t + d + s)
  {
    var e := t + d + s;
    forall k, l | 0 <= k < l < |e| ensures Rank(e[k].field) < Rank(e[l].field) {
      var fk := if k < |t| then TitleField else if k < |t| + |d| then DescriptionField else StatusField;
      var fl := if l < |t| then TitleField else if l < |t| + |d| then DescriptionField else StatusField;
      assert e[k].field == fk && e[l].field == fl;
    }
  }

  /** What the rules demand of a body, stated field by field. */
  predicate Acceptable(b: Input) {
    && b.title.Some? && 0 < |Trim(b.title.value)| <= MaxTitleLength
    && (b.description.None? || |Trim(b.description.value)| <= MaxDescriptionLength)
    && (b.status.None? || IsStatusName(b.status.value))
  }

  /**
    Runs the whole chain: no messages exactly when the body is acceptable,
    each message is present exactly when its rule fails, and no field is
    reported twice.
   */
  function ValidateTask(b: Input): (errs: seq<FieldError>)
    ensures errs == [] <==> Acceptable(b)
    ensures FieldError(TitleField, TitleRequiredMessage) in errs <==> |Trim(b.title.GetOr(""))| == 0
    ensures FieldError(TitleField, TitleTooLongMessage) in errs <==> |Trim(b.title.GetOr(""))| > MaxTitleLength
    ensures FieldError(DescriptionField, DescriptionTooLongMessage) in errs <==>
      b.description.Some? && |Trim(b.description.value)| > MaxDescriptionLength
    ensures FieldError(StatusField, StatusInvalidMessage) in errs <==>
      b.status.Some? && !IsStatusName(b.status.value)
  {
    var t, d, s := TitleErrors(b.title), DescriptionErrors(b.description), StatusErrors(b.status);
    t + d + s
  }

  /** The messages come in the order the fields' rules are declared, at most one per field. */
  lemma ValidateTaskInFieldOrder(b: Input)
    ensures InFieldOrder(ValidateTask(b))
  {
    OneEachInOrder(TitleErrors(b.title), DescriptionErrors(b.description), StatusErrors(b.status));
  }

  /** White space around the title never changes the outcome of the rules. */
  lemma TitlePaddingDoesNotMatter(b: Input, pre: string, post: string)
    requires AllSpace(pre) && AllSpace(post) && b.title.Some?
    ensures ValidateTask(b.(title := Some(pre + b.title.value + post))) == ValidateTask(b)
  {
    var padded := pre + b.title.value + post;
    TrimIgnoresPadding(pre, b.title.value, post);
    assert Trim(Some(padded).GetOr("")) == Trim(b.title.GetOr(""));
    assert TitleErrors(Some(padded)) == TitleErrors(b.title);
  }

  /** White space around the description never changes the outcome of the rules. */
  lemma DescriptionPaddingDoesNotMatter(b: Input, pre: string, post: string)
    requires AllSpace(pre) && AllSpace(post) && b.description.Some?
    ensures ValidateTask(b.(description := Some(pre + b.description.value + post))) == ValidateTask(b)
  {
    TrimIgnoresPadding(pre, b.description.value, post);
    assert DescriptionErrors(Some(pre + b.description.value + post)) == DescriptionErrors(b.description);
  }
}
