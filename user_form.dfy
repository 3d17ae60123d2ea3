/**
 * The form that edits a user (frontend/src/routes/EditUser.tsx): name and mail must be given,
 * the role must read as one of the role codes, and the change is sent only when all three pass.
 * UserObject.ts and EditUserRequestObject.ts are not part of this model; their fields are the
 * ones the form reads and sends.
 */
module UserForms {
  import opened Wrappers
  import opened Text
  import Roles

  /** The role as the form holds it: the number fetched with the user, or the text a select put there. */
  datatype RoleValue = RoleNumber(n: int) | RoleText(s: string)

  datatype UserObject = UserObject(id: string, tenantId: string, name: string, mail: string, role: RoleValue)

  /** `value.toString()` of the role. */
  function RoleString(v: RoleValue): string {
    match v
    case RoleNumber(n) => IntToString(n)
    case RoleText(s) => s
  }

  /** The longest run of decimal digits at the start of the string. */
  function DigitPrefix(s: string): (d: string)
    ensures AllDigits(d)
  {
    if s != [] && IsDigit(s[0]) then [s[0]] + DigitPrefix(s[1..]) else []
  }

  predicate IsHexDigit(c: char) {
    IsDigit(c) || 'a' <= c <= 'f' || 'A' <= c <= 'F'
  }

  predicate AllHexDigits(s: string) {
    forall i :: 0 <= i < |s| ==> IsHexDigit(s[i])
  }

  function HexDigitValue(c: char): nat
    requires IsHexDigit(c)
  {
    if IsDigit(c) then DigitValue(c)
    else if 'a' <= c <= 'f' then (c as int - 'a' as int + 10) as nat
    else (c as int - 'A' as int + 10) as nat
  }

  /** The number written by a string of hexadecimal digits. */
  function HexValue(s: string): nat
    requires AllHexDigits(s)
  {
    if s == [] then 0 else 16 * HexValue(s[..|s| - 1]) + HexDigitValue(s[|s| - 1])
  }

  /** The longest run of hexadecimal digits at the start of the string. */
  function HexPrefix(s: string): (h: string)
    ensures AllHexDigits(h)
  {
    if s != [] && IsHexDigit(s[0]) then [s[0]] + HexPrefix(s[1..]) else []
  }

  /** A leading `0x` or `0X`, after which `parseInt` without a radix reads base sixteen. */
  predicate HexMarked(u: string) {
    |u| >= 2 && u[0] == '0' && (u[1] == 'x' || u[1] == 'X')
  }

  /** The magnitude read after the sign: hexadecimal after the mark, decimal otherwise; None without a digit. */
  function Magnitude(u: string): Option<nat> {
    if HexMarked(u) then
      var h := HexPrefix(u[2..]);
      if h == [] then None else Some(HexValue(h))
    else
      var d := DigitPrefix(u);
      if d == [] then None else Some(DecimalValue(d))
  }

  /**
   * `parseInt(value)` without a radix: leading white space is skipped and a sign is read; then
   * a `0x` mark selects base sixteen, otherwise base ten, and as many digits of that base as
   * follow are read; with no digit at all the result is NaN (None).
   */
  function ParseInt(s: string): Option<int> {
    var t := TrimStart(s);
    var m := Magnitude(Unsigned(t));
    if m.None? then None
    else if t != [] && t[0] == '-' then Some(-(m.value as int))
    else Some(m.value)
  }

  /** The text after a leading sign, if there is one. */
  function Unsigned(t: string): string {
    if t != [] && (t[0] == '-' || t[0] == '+') then t[1..] else t
  }

  /** The role codes the form accepts, as listed in the form. */
  const ValidRoles: seq<int> := [100, 200, 300, 400, 500]

  function NameError(value: string): (e: string)
    ensures e == "" <==> |value| >= 1
  {
    if |value| < 1 then "Name is required" else ""
  }

  function MailError(value: string): (e: string)
    ensures e == "" <==> |value| >= 1
  {
    if |value| < 1 then "Mail is required" else ""
  }

  /** The role check: the parsed number must be one of the listed codes; NaN never is. */
  function RoleError(value: string): (e: string)
    ensures e == "" <==> RoleAccepted(value)
  {
    var parsedValue := ParseInt(value);
    if parsedValue.None? || parsedValue.value !in ValidRoles then "Invalid role" else ""
  }

  /** The form's list is exactly the codes of the roles: a role passes exactly when a role has that code. */
  lemma RoleCheckMatchesRoles(value: string)
    ensures RoleError(value) == "" <==> ParseInt(value).Some? && Roles.GetRoleById(ParseInt(value).value).Some?
  {
    assert forall x :: x in ValidRoles <==> x in Roles.RoleCodes;
  }

  lemma {:induction false} DigitPrefixOfDigits(s: string)
    requires AllDigits(s)
    ensures DigitPrefix(s) == s
  {
    if s != [] {
      DigitPrefixOfDigits(s[1..]);
    }
  }

  lemma TrimStartNoSpace(s: string)
    requires s != [] && !IsSpace(s[0])
    ensures TrimStart(s) == s
  {
  }

  /**
   * Decimal digits `d` that end where `rest` begins: `rest` does not go on with a digit, and
   * after a lone `0` it does not start with the `x` of a hexadecimal mark.
   */
  predicate DigitsThenEnd(d: string, rest: string) {
    && d != [] && AllDigits(d)
    && (rest == [] || !IsDigit(rest[0]))
    && (d == "0" ==> rest == [] || (rest[0] != 'x' && rest[0] != 'X'))
  }

  /**
   * Digits followed by text that does not go on with a digit read as the number the digits
   * write, unless they are a lone `0` followed by the `x` of a hexadecimal mark.
   */
  lemma ParseDigitsThen(d: string, rest: string)
    requires DigitsThenEnd(d, rest)
    ensures ParseInt(d + rest) == Some(DecimalValue(d) as int)
  {
    var s := d + rest;
    assert s[0] == d[0];
    TrimStartNoSpace(s);
    assert Unsigned(s) == s;
    DigitsMagnitude(d, rest);
  }

  /** Decimal digits that end where no digit (and no mark after a lone `0`) follows read as their value. */
  lemma DigitsMagnitude(d: string, rest: string)
    requires DigitsThenEnd(d, rest)
    ensures Magnitude(d + rest) == Some(DecimalValue(d))
  {
    NotHexMarked(d, rest);
    DigitPrefixThen(d, rest);
  }

  /** Decimal digits followed by anything but a mark's `x` after a lone `0` carry no hexadecimal mark. */
  lemma NotHexMarked(d: string, rest: string)
    requires d != [] && AllDigits(d)
    requires d == "0" ==> rest == [] || (rest[0] != 'x' && rest[0] != 'X')
    ensures !HexMarked(d + rest)
  {
    var s := d + rest;
    if |d| >= 2 {
      assert s[1] == d[1];
    }
    if |d| == 1 && rest != [] {
      assert d == [d[0]];
      assert s[1] == rest[0];
    }
  }

  lemma {:induction false} HexPrefixThen(h: string, rest: string)
    requires AllHexDigits(h)
    requires rest == [] || !IsHexDigit(rest[0])
    ensures HexPrefix(h + rest) == h
  {
    if h != [] {
      assert (h + rest)[1..] == h[1..] + rest;
      HexPrefixThen(h[1..], rest);
      assert h == [h[0]] + h[1..];
    } else {
      assert h + rest == rest;
    }
  }

  /** After a `0x` mark the hexadecimal digits that follow are read in base sixteen. */
  lemma ParseHexThen(h: string, rest: string)
    requires h != [] && AllHexDigits(h)
    requires rest == [] || !IsHexDigit(rest[0])
    ensures ParseInt("0x" + h + rest) == Some(HexValue(h) as int)
  {
    var s := "0x" + h + rest;
    assert s[0] == '0' && s[1] == 'x';
    TrimStartNoSpace(s);
    assert Unsigned(s) == s;
    assert s[2..] == h + rest;
    HexPrefixThen(h, rest);
  }

  /** So `"0x64"` is read as 100, the code of a role, and passes the check. */
  lemma HexRoleAccepted()
    ensures ParseInt("0x64") == Some(100) && RoleError("0x64") == ""
  {
    assert HexValue("64") == 100 by {
      assert "64"[..1] == "6" && "6"[..0] == "";
    }
    ParseHexThen("64", "");
    assert "0x" + "64" + "" == "0x64";
  }

  /** The same after a minus sign: the number is negated. */
  lemma ParseNegativeDigitsThen(d: string, rest: string)
    requires DigitsThenEnd(d, rest)
    ensures ParseInt("-" + (d + rest)) == Some(-(DecimalValue(d) as int))
  {
    DigitsMagnitude(d, rest);
    ParseNegated(d + rest, DecimalValue(d));
  }

  /** A minus sign in front of text that reads as a magnitude negates it. */
  lemma ParseNegated(u: string, m: nat)
    requires Magnitude(u) == Some(m)
    ensures ParseInt("-" + u) == Some(-(m as int))
  {
    var t := "-" + u;
    assert t[0] == '-';
    TrimStartNoSpace(t);
    assert t[1..] == u;
  }

  lemma {:induction false} DigitPrefixThen(d: string, rest: string)
    requires AllDigits(d)
    requires rest == [] || !IsDigit(rest[0])
    ensures DigitPrefix(d + rest) == d
  {
    if d != [] {
      assert (d + rest)[1..] == d[1..] + rest;
      DigitPrefixThen(d[1..], rest);
      assert d == [d[0]] + d[1..];
    } else {
      assert d + rest == rest;
    }
  }

  /** Reading back the text of a number gives the number. */
  lemma ParseIntOfString(n: int)
    ensures ParseInt(IntToString(n)) == Some(n)
  {
    if n >= 0 {
      ParseNatString(n);
    } else {
      ParseNegatedNatString(-n);
    }
  }

  lemma ParseNatString(n: nat)
    ensures ParseInt(NatToDecimal(n)) == Some(n)
  {
    var d := NatToDecimal(n);
    DecimalRoundTrip(n);
    assert d + "" == d;
    ParseDigitsThen(d, "");
  }

  lemma ParseNegatedNatString(n: nat)
    ensures ParseInt("-" + NatToDecimal(n)) == Some(-(n as int))
  {
    var d := NatToDecimal(n);
    var t := "-" + d;
    DecimalRoundTrip(n);
    assert t[0] == '-';
    TrimStartNoSpace(t);
    assert t[1..] == d + "";
    DigitsMagnitude(d, "");
  }

  /** A role held as a number passes exactly when it is the code of a role. */
  lemma NumericRoleValid(n: int)
    ensures RoleError(RoleString(RoleNumber(n))) == "" <==> n in Roles.RoleCodes
  {
    ParseIntOfString(n);
    assert forall x :: x in ValidRoles <==> x in Roles.RoleCodes;
  }

  /** Trailing text after the digits is ignored by the check, as `parseInt` ignores it. */
  lemma TrailingTextIgnored()
    ensures RoleError("300abc") == ""
  {
    assert DecimalValue("300") == 300 by {
      assert "300"[..2] == "30" && "30"[..1] == "3";
    }
    ParseDigitsThen("300", "abc");
    assert "300" + "abc" == "300abc";
  }

  /** Text that does not start with a digit, after white space and a sign, is NaN and fails the check. */
  lemma NoDigitFails(s: string)
    requires var u := Unsigned(TrimStart(s)); u == [] || !IsDigit(u[0])
    ensures ParseInt(s).None? && RoleError(s) != ""
  {
  }

  /** The keys of the user object in the order `for ... in` visits them. */
  datatype Field = Id | TenantId | Name | Mail | Role

  const UserFields: seq<Field> := [Id, TenantId, Name, Mail, Role]

  predicate HasValidator(f: Field) {
    f == Name || f == Mail || f == Role
  }

  function Check(user: UserObject, f: Field): (r: Option<string>)
    ensures r.Some? <==> HasValidator(f)
  {
    match f
    case Name => Some(NameError(user.name))
    case Mail => Some(MailError(user.mail))
    case Role => Some(RoleError(RoleString(user.role)))
    case _ => None
  }

  /** What the form demands of a user. */
  predicate AllValid(user: UserObject) {
    |user.name| >= 1 && |user.mail| >= 1 && RoleAccepted(RoleString(user.role))
  }

  /** The role text reads as one of the listed codes. */
  predicate RoleAccepted(value: string) {
    ParseInt(value).Some? && ParseInt(value).value in ValidRoles
  }

  datatype FormErrors = FormErrors(name: string, mail: string, role: string)

  function ErrorOf(errors: FormErrors, f: Field): string {
    match f
    case Name => errors.name
    case Mail => errors.mail
    case Role => errors.role
    case _ => ""
  }

  function WithError(errors: FormErrors, f: Field, e: string): (r: FormErrors)
    ensures HasValidator(f) ==> ErrorOf(r, f) == e
    ensures forall g :: g != f ==> ErrorOf(r, g) == ErrorOf(errors, g)
  {
    match f
    case Name => errors.(name := e)
    case Mail => errors.(mail := e)
    case Role => errors.(role := e)
    case _ => errors
  }

  predicate FieldsPass(user: UserObject, fs: seq<Field>) {
    forall i :: 0 <= i < |fs| && HasValidator(fs[i]) ==> Check(user, fs[i]).value == ""
  }

  /** The error recorded for a field once the fields `fs` have been visited. */
  function Recorded(user: UserObject, fs: seq<Field>, f: Field): string {
    if f in fs && HasValidator(f) then Check(user, f).value else ""
  }

  lemma FieldsPassStep(user: UserObject, fs: seq<Field>, x: Field)
    ensures FieldsPass(user, fs + [x]) <==> FieldsPass(user, fs) && (HasValidator(x) ==> Check(user, x).value == "")
  {
    assert forall i :: 0 <= i < |fs| ==> (fs + [x])[i] == fs[i];
    assert (fs + [x])[|fs|] == x;
  }

  lemma RecordedStep(user: UserObject, fs: seq<Field>, x: Field, f: Field)
    ensures Recorded(user, fs + [x], f) == if f == x && HasValidator(f) then Check(user, f).value else Recorded(user, fs, f)
  {
    assert f in fs + [x] <==> f in fs || f == x;
  }

  /** Visiting every key checks exactly what the form demands, and `id` and `tenantId` are never checked. */
  lemma UserFieldsCover(user: UserObject)
    ensures FieldsPass(user, UserFields) <==> AllValid(user)
    ensures Recorded(user, UserFields, Name) == NameError(user.name)
    ensures Recorded(user, UserFields, Mail) == MailError(user.mail)
    ensures Recorded(user, UserFields, Role) == RoleError(RoleString(user.role))
  {
    assert UserFields[2] == Name && UserFields[3] == Mail && UserFields[4] == Role;
  }

  /**
   * `validateAllFields`: runs the validators of name, mail and role on the text of each value,
   * skips `id` and `tenantId`, records every answer, and is true exactly when all three pass.
   */
  method ValidateAllFields(user: UserObject) returns (isValid: bool, errors: FormErrors)
    ensures isValid <==> AllValid(user)
    ensures errors == FormErrors(NameError(user.name), MailError(user.mail), RoleError(RoleString(user.role)))
  {
    errors := FormErrors("", "", "");
    isValid := true;
    for i := 0 to |UserFields|
      invariant isValid <==> FieldsPass(user, UserFields[..i])
      invariant forall f :: ErrorOf(errors, f) == Recorded(user, UserFields[..i], f)
    {
      assert UserFields[..i + 1] == UserFields[..i] + [UserFields[i]];
      FieldsPassStep(user, UserFields[..i], UserFields[i]);
      var check := Check(user, UserFields[i]);
      if check.Some? {
        var error := check.value;
        if error != "" {
          isValid := false;
        }
        errors := WithError(errors, UserFields[i], error);
      }
      forall f | true
        ensures ErrorOf(errors, f) == Recorded(user, UserFields[..i + 1], f)
      {
        RecordedStep(user, UserFields[..i], UserFields[i], f);
      }
    }
    assert UserFields[..|UserFields|] == UserFields;
    UserFieldsCover(user);
    assert ErrorOf(errors, Name) == NameError(user.name);
    assert ErrorOf(errors, Mail) == MailError(user.mail);
    assert ErrorOf(errors, Role) == RoleError(RoleString(user.role));
  }

  /** EditUserRequestObject: what the change sends. */
  datatype EditUserRequest = EditUserRequest(name: string, mail: string, role: RoleValue)

  /**
   * `handleSubmit`: the PUT goes to the user's own path and carries name, mail and role only,
   * and it is sent exactly when the form is valid.
   */
  method HandleSubmit(user: UserObject) returns (put: Option<(string, EditUserRequest)>)
    ensures put.Some? <==> AllValid(user)
    ensures put.Some? ==> put.value == ("/user/" + user.id, EditUserRequest(user.name, user.mail, user.role))
  {
    var request := EditUserRequest(user.name, user.mail, user.role);
    var isValid, errors := ValidateAllFields(user);
    if !isValid {
      return None;
    }
    put := Some(("/user/" + user.id, request));
  }

  /** A change the form sends names a role that exists, whichever form the role value took. */
  lemma SentRoleExists(user: UserObject)
    requires AllValid(user)
    ensures ParseInt(RoleString(user.role)).Some?
    ensures Roles.GetRoleById(ParseInt(RoleString(user.role)).value).Some?
  {
    RoleCheckMatchesRoles(RoleString(user.role));
  }
}
