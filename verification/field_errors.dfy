/**
 * The inline error annotations of blur-time validation: showFieldError and
 * hideFieldError (main.js:320-338) and the blur listeners that call them
 * (main.js:290-318).
 *
 * A field's annotation is a '.field-error' node appended to the field's
 * parent, and it is found again by searching that parent, so the model keeps
 * the parent's children as a sequence and every field that shares a parent
 * shares its annotations.
 */
module FieldErrors {
  import opened Wrappers
  import opened Validation

  /** A child of a field's parent: an error annotation with its text, or any other node. */
  datatype Node = FieldError(message: string) | Other(id: string)

  function ErrorCount(s: seq<Node>): nat
  {
    if s == [] then 0 else (if s[0].FieldError? then 1 else 0) + ErrorCount(s[1..])
  }

  /** The children that are not error annotations, in their order. */
  function NonErrors(s: seq<Node>): seq<Node>
  {
    if s == [] then [] else (if s[0].FieldError? then [] else [s[0]]) + NonErrors(s[1..])
  }

  /** The children once the first annotation, if there is one, is removed. */
  function RemoveFirstError(s: seq<Node>): seq<Node>
  {
    if s == [] then []
    else if s[0].FieldError? then s[1..]
    else [s[0]] + RemoveFirstError(s[1..])
  }

  /** k is the position of the first annotation among s. */
  predicate IsFirstError(s: seq<Node>, k: int)
  {
    0 <= k < |s| && s[k].FieldError? && forall j | 0 <= j < k :: !s[j].FieldError?
  }

  predicate NoErrors(s: seq<Node>)
  {
    forall j | 0 <= j < |s| :: !s[j].FieldError?
  }

  /** The search for the parent's first '.field-error' node, over its children in order. */
  method FindFirstError(s: seq<Node>) returns (found: bool, k: nat)
    ensures found ==> IsFirstError(s, k)
    ensures !found ==> NoErrors(s)
  {
    k := 0;
    while k < |s|
      invariant k <= |s|
      invariant forall j | 0 <= j < k :: !s[j].FieldError?
    {
      if s[k].FieldError? {
        return true, k;
      }
      k := k + 1;
    }
    return false, 0;
  }

  lemma {:induction false} RemoveFirstErrorAt(s: seq<Node>, k: int)
    requires IsFirstError(s, k)
    ensures RemoveFirstError(s) == s[..k] + s[k + 1..]
    decreases |s|
  {
    if k > 0 {
      RemoveFirstErrorAt(s[1..], k - 1);
      assert s[..k] == [s[0]] + s[1..][..k - 1];
    }
  }

  lemma {:induction false} RemoveFirstErrorNone(s: seq<Node>)
    requires NoErrors(s)
    ensures RemoveFirstError(s) == s
    decreases |s|
  {
    if s != [] {
      RemoveFirstErrorNone(s[1..]);
    }
  }

  /** Removing the first annotation removes exactly one, when there is one. */
  lemma {:induction false} RemoveFirstErrorCount(s: seq<Node>)
    ensures ErrorCount(RemoveFirstError(s)) == if ErrorCount(s) == 0 then 0 else ErrorCount(s) - 1
    decreases |s|
  {
    if s != [] && !s[0].FieldError? {
      RemoveFirstErrorCount(s[1..]);
      ErrorCountConcat([s[0]], RemoveFirstError(s[1..]));
    }
  }

  /** Removing the first annotation leaves every other node where it was. */
  lemma {:induction false} RemoveFirstErrorKeepsOthers(s: seq<Node>)
    ensures NonErrors(RemoveFirstError(s)) == NonErrors(s)
    decreases |s|
  {
    if s != [] && !s[0].FieldError? {
      RemoveFirstErrorKeepsOthers(s[1..]);
      NonErrorsConcat([s[0]], RemoveFirstError(s[1..]));
    }
  }

  lemma {:induction false} ErrorCountConcat(a: seq<Node>, b: seq<Node>)
    ensures ErrorCount(a + b) == ErrorCount(a) + ErrorCount(b)
    decreases |a|
  {
    if a == [] {
      assert a + b == b;
    } else {
      assert (a + b)[1..] == a[1..] + b;
      ErrorCountConcat(a[1..], b);
    }
  }

  lemma {:induction false} NonErrorsConcat(a: seq<Node>, b: seq<Node>)
    ensures NonErrors(a + b) == NonErrors(a) + NonErrors(b)
    decreases |a|
  {
    if a == [] {
      assert a + b == b;
    } else {
      assert (a + b)[1..] == a[1..] + b;
      NonErrorsConcat(a[1..], b);
    }
  }

  /** With no annotation among them, the children are exactly their non-annotation nodes. */
  lemma {:induction false} NoErrorCountIsNonErrors(s: seq<Node>)
    requires ErrorCount(s) == 0
    ensures NonErrors(s) == s
    decreases |s|
  {
    if s != [] {
      NoErrorCountIsNonErrors(s[1..]);
    }
  }

  /** The children showFieldError leaves. */
  function ShownError(s: seq<Node>, message: string): seq<Node>
  {
    RemoveFirstError(s) + [FieldError(message)]
  }

  /**
   * Starting from at most one annotation, showFieldError leaves exactly one:
   * the last child, holding the new message, after every other node in its
   * original order.
   */
  lemma ShowLeavesExactlyOne(s: seq<Node>, message: string)
    requires ErrorCount(s) <= 1
    ensures ShownError(s, message) == NonErrors(s) + [FieldError(message)]
    ensures ErrorCount(ShownError(s, message)) == 1
  {
    RemoveFirstErrorCount(s);
    RemoveFirstErrorKeepsOthers(s);
    NoErrorCountIsNonErrors(RemoveFirstError(s));
    ErrorCountConcat(RemoveFirstError(s), [FieldError(message)]);
  }

  /** Starting from at most one annotation, hideFieldError leaves none. */
  lemma HideLeavesNone(s: seq<Node>)
    requires ErrorCount(s) <= 1
    ensures ErrorCount(RemoveFirstError(s)) == 0
    ensures RemoveFirstError(s) == NonErrors(s)
  {
    RemoveFirstErrorCount(s);
    RemoveFirstErrorKeepsOthers(s);
    NoErrorCountIsNonErrors(RemoveFirstError(s));
  }

  /** A field's parent element; only its list of children is modelled. */
  class FieldParent {
    var children: seq<Node>

    ghost predicate Valid()
      reads this
    {
      ErrorCount(children) <= 1
    }

    constructor (children: seq<Node>)
      requires ErrorCount(children) <= 1
      ensures this.children == children && Valid()
    {
      this.children := children;
    }

    /** hideFieldError: remove the first annotation found under the parent, if any. */
    method HideFieldError()
      modifies this
      ensures children == RemoveFirstError(old(children))
      ensures ErrorCount(old(children)) <= 1 ==> children == NonErrors(old(children)) && ErrorCount(children) == 0
    {
      var found, k := FindFirstError(children);
      if found {
        RemoveFirstErrorAt(children, k);
        children := children[..k] + children[k + 1..];
      } else {
        RemoveFirstErrorNone(children);
      }
      if ErrorCount(old(children)) <= 1 {
        HideLeavesNone(old(children));
      }
    }

    /** showFieldError: hide the existing annotation, then append a new one at the end. */
    method ShowFieldError(message: string)
      modifies this
      ensures children == ShownError(old(children), message)
      ensures ErrorCount(old(children)) <= 1 ==>
                children == NonErrors(old(children)) + [FieldError(message)] && ErrorCount(children) == 1
    {
      HideFieldError();
      children := children + [FieldError(message)];
      if ErrorCount(old(children)) <= 1 {
        ShowLeavesExactlyOne(old(children), message);
      }
    }
  }

  datatype FieldKind = EmailField | PhoneField

  /** The message each blur listener shows for an invalid value. */
  function ErrorMessage(kind: FieldKind): string
  {
    match kind
    case EmailField => "Please enter a valid email address"
    case PhoneField => "Please enter a valid phone number"
  }

  function IsValidFor(kind: FieldKind, value: string): bool
  {
    match kind
    case EmailField => ValidateEmail(value)
    case PhoneField => ValidatePhone(value)
  }

  /**
   * The decision of a blur listener: Some(message) to show an annotation,
   * None to hide any. An empty value is never flagged.
   */
  function BlurVerdict(kind: FieldKind, value: string): (r: Option<string>)
    ensures value == "" ==> r == None
    ensures r.Some? <==> value != "" && !IsValidFor(kind, value)
    ensures r.Some? ==> r.value == ErrorMessage(kind)
  {
    if value != "" && !IsValidFor(kind, value) then Some(ErrorMessage(kind)) else None
  }

  /**
   * The blur rule in plain words: an email field is flagged iff its value is
   * non-empty and not a whitespace-free word with one '@' and a later inner
   * '.'; a phone field iff its value is non-empty and its digits-and-'+'
   * remainder is not an optional '+', a digit 1-9 and at most 15 more digits.
   */
  lemma BlurVerdictInWords(value: string)
    ensures BlurVerdict(EmailField, value).Some? <==> value != "" && !EmailWords(value)
    ensures BlurVerdict(PhoneField, value).Some? <==> value != "" && !PhoneShape(StripPhone(value))
  {
    ValidateEmailIffShape(value);
    EmailShapeIffWords(value);
    ValidatePhoneIffShape(value);
  }

  /** The colour the listener gives the border of a flagged field. */
  const ErrorBorderColor: string := "#e74c3c"

  /** An email or telephone input and the parent its annotations go into. */
  class InputField {
    const kind: FieldKind
    var value: string
    var borderColor: string   // style.borderColor
    const parent: FieldParent

    constructor (kind: FieldKind, parent: FieldParent)
      ensures this.kind == kind && this.parent == parent
      ensures value == "" && borderColor == ""
    {
      this.kind := kind;
      this.parent := parent;
      this.value := "";
      this.borderColor := "";
    }

    /** The blur listener (main.js:294-301 for email, main.js:308-315 for phone). */
    method OnBlur()
      modifies this, parent
      ensures value == old(value)
      ensures old(parent.Valid()) ==> parent.Valid()
      ensures BlurVerdict(kind, value).Some? ==>
                borderColor == ErrorBorderColor &&
                parent.children == ShownError(old(parent.children), ErrorMessage(kind))
      ensures BlurVerdict(kind, value).None? ==>
                borderColor == "" && parent.children == RemoveFirstError(old(parent.children))
      ensures value == "" && old(parent.Valid()) ==> ErrorCount(parent.children) == 0
    {
      if value != "" && !IsValidFor(kind, value) {
        borderColor := ErrorBorderColor;
        parent.ShowFieldError(ErrorMessage(kind));
      } else {
        borderColor := "";
        parent.HideFieldError();
      }
    }
  }

  /** Two annotations in a row under one parent still leave exactly one, holding the second message. */
  lemma ShowTwiceLeavesOne(s: seq<Node>, first: string, second: string)
    requires ErrorCount(s) <= 1
    ensures ShownError(ShownError(s, first), second) == NonErrors(s) + [FieldError(second)]
  {
    ShowLeavesExactlyOne(s, first);
    ShowLeavesExactlyOne(ShownError(s, first), second);
    NonErrorsConcat(NonErrors(s), [FieldError(first)]);
    NonErrorsIdempotent(s);
  }

  lemma {:induction false} NonErrorsIdempotent(s: seq<Node>)
    ensures NonErrors(NonErrors(s)) == NonErrors(s)
    decreases |s|
  {
    if s != [] {
      NonErrorsIdempotent(s[1..]);
      NonErrorsConcat(if s[0].FieldError? then [] else [s[0]], NonErrors(s[1..]));
    }
  }
}
