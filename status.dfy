/**
 * The EmailStatus enum and the case-insensitive parse the webhook applies to
 * provider event names (`EmailStatus.valueOf(event.toUpperCase())`).
 *
 * The enum's declaration is not part of this model. It has at least the
 * constants QUEUED, SENT and FAILED; any further constants are kept abstract
 * as a set of names `extras` that every parse is given.
 */
module Status {
  import opened Wrappers

  datatype EmailStatus = Queued | Sent | Failed | Other(constant: string)

  const CoreNames: set<string> := {"QUEUED", "SENT", "FAILED"}

  /** `Enum.name()` of a status constant. */
  function Name(s: EmailStatus): string
  {
    match s
    case Queued => "QUEUED"
    case Sent => "SENT"
    case Failed => "FAILED"
    case Other(n) => n
  }

  /** `s` is a constant of an EmailStatus enum whose further constants are named by `extras`. */
  predicate InEnum(s: EmailStatus, extras: set<string>)
  {
    s.Other? ==> s.constant in extras && s.constant !in CoreNames
  }

  /** `Character.toUpperCase` restricted to ASCII letters. */
  function UpperChar(c: char): char
  {
    if 'a' <= c <= 'z' then (c as int - 32) as char else c
  }

  predicate IsUpper(s: string)
  {
    forall i :: 0 <= i < |s| ==> !('a' <= s[i] <= 'z')
  }

  /** `String.toUpperCase` on ASCII text. */
  function ToUpper(s: string): (u: string)
    ensures |u| == |s|
    ensures IsUpper(u)
    ensures forall i :: 0 <= i < |s| ==> u[i] == UpperChar(s[i])
  {
    if s == [] then [] else [UpperChar(s[0])] + ToUpper(s[1..])
  }

  /**
   * `EmailStatus.valueOf(text.toUpperCase())`: the constant whose name is the
   * upper-cased text, or None where `valueOf` throws IllegalArgumentException.
   */
  function Parse(text: string, extras: set<string>): (r: Option<EmailStatus>)
    ensures r.Some? ==> InEnum(r.value, extras) && Name(r.value) == ToUpper(text)
    ensures r.None? ==> forall s :: InEnum(s, extras) ==> Name(s) != ToUpper(text)
  {
    var u := ToUpper(text);
    if u == "QUEUED" then Some(Queued)
    else if u == "SENT" then Some(Sent)
    else if u == "FAILED" then Some(Failed)
    else if u in extras then Some(Other(u))
    else None
  }

  /** Upper-casing twice is upper-casing once. */
  lemma ToUpperIdempotent(s: string)
    ensures ToUpper(ToUpper(s)) == ToUpper(s)
  {
  }

  /** Text that is already upper case is left alone by ToUpper. */
  lemma ToUpperOfUpper(s: string)
    requires IsUpper(s)
    ensures ToUpper(s) == s
  {
  }

  /**
   * The parse accepts exactly the case variants of the enum's constant names:
   * it yields `s` if and only if `s` is a constant and the upper-cased text is its name.
   */
  lemma ParseExact(text: string, extras: set<string>, s: EmailStatus)
    ensures Parse(text, extras) == Some(s) <==> InEnum(s, extras) && ToUpper(text) == Name(s)
  {
  }

  /** The parse ignores case: a text and its upper-cased form parse alike. */
  lemma ParseIgnoresCase(text: string, extras: set<string>)
    ensures Parse(text, extras) == Parse(ToUpper(text), extras)
  {
    ToUpperIdempotent(text);
  }

  /** Every constant whose name is upper case is recovered from its name. */
  lemma ParseName(s: EmailStatus, extras: set<string>)
    requires InEnum(s, extras) && IsUpper(Name(s))
    ensures Parse(Name(s), extras) == Some(s)
  {
    ToUpperOfUpper(Name(s));
  }

  /** ToUpper is determined letter by letter. */
  lemma UpperCasesTo(s: string, t: string)
    requires |s| == |t| && forall i :: 0 <= i < |s| ==> UpperChar(s[i]) == t[i]
    ensures ToUpper(s) == t
  {
  }

  /** "sent", "Sent" and "SENT" all parse to SENT. */
  lemma ParseSentExamples(extras: set<string>)
    ensures Parse("sent", extras) == Some(Sent)
    ensures Parse("Sent", extras) == Some(Sent)
    ensures Parse("SENT", extras) == Some(Sent)
  {
    UpperCasesTo("sent", "SENT");
    UpperCasesTo("Sent", "SENT");
    UpperCasesTo("SENT", "SENT");
  }

  /** A provider event such as "bounce" parses to nothing unless the enum has a BOUNCE constant. */
  lemma ParseUnknownExample(extras: set<string>)
    ensures "BOUNCE" !in extras ==> Parse("bounce", extras) == None
    ensures "BOUNCE" in extras ==> Parse("bounce", extras) == Some(Other("BOUNCE"))
  {
    UpperCasesTo("bounce", "BOUNCE");
  }
}
