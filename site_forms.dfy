/** The form handlers of the project's public page: the e-mail check and
    the contact form, the image preview of the Gemini demonstration and the
    checks made before an image is sent for description. */
module SiteForms {
  import opened Js

  // ---------------------------------------------------------------------
  // The e-mail check

  /** A character `[^\s@]` accepts. */
  predicate Plain(c: char)
  {
    !IsSpace(c) && c != '@'
  }

  predicate AllPlain(s: string)
  {
    forall i | 0 <= i < |s| :: Plain(s[i])
  }

  /** `/^[^\s@]+@[^\s@]+\.[^\s@]+$/.test(email)`, decided at the first `@`:
      a non-empty local part, and a domain with a dot that has text on both
      sides, neither part holding whitespace or `@`. */
  function IsValidEmail(email: string): bool
  {
    var at := FirstIndexOf(email, '@');
    var domain := if at < |email| then email[at + 1..] else [];
    0 < at < |email| && AllPlain(email[..at]) && AllPlain(domain)
    && |domain| >= 3 && '.' in domain[1..|domain| - 1]
  }

  /** The pattern itself: some `@` splits the address into a local part and
      a domain of the shape `[^\s@]+\.[^\s@]+`. */
  ghost predicate EmailShape(email: string)
  {
    exists at, dot | 0 < at < dot < |email| - 1 ::
      email[at] == '@' && email[dot] == '.' && dot > at + 1
      && AllPlain(email[..at]) && AllPlain(email[at + 1..])
  }

  lemma ValidEmailHasShape(email: string)
    requires IsValidEmail(email)
    ensures EmailShape(email)
  {
    var at := FirstIndexOf(email, '@');
    var domain := email[at + 1..];
    var inner := domain[1..|domain| - 1];
    var j :| 0 <= j < |inner| && inner[j] == '.';
    var dot := at + 2 + j;
    assert email[dot] == '.' && 0 < at < dot < |email| - 1 && dot > at + 1;
  }

  lemma ShapeIsValidEmail(email: string)
    requires EmailShape(email)
    ensures IsValidEmail(email)
  {
    var a, dot :| 0 < a < dot < |email| - 1 && email[a] == '@' && email[dot] == '.' && dot > a + 1
      && AllPlain(email[..a]) && AllPlain(email[a + 1..]);
    ShapeAtIsValidEmail(email, a, dot);
  }

  /** The pattern matched with its `@` at `a` and a dot at `dot`. */
  lemma ShapeAtIsValidEmail(email: string, a: nat, dot: nat)
    requires 0 < a < dot < |email| - 1 && email[a] == '@' && email[dot] == '.' && dot > a + 1
    requires AllPlain(email[..a]) && AllPlain(email[a + 1..])
    ensures IsValidEmail(email)
  {
    forall i | 0 <= i < a
      ensures email[i] != '@'
    {
      assert Plain(email[..a][i]);
    }
    FirstIndexIs(email, '@', a);
    var domain := email[a + 1..];
    assert domain[1..|domain| - 1][dot - a - 2] == '.';
  }

  /** The check accepts exactly the addresses of the pattern. */
  lemma IsValidEmailMeansShape(email: string)
    ensures IsValidEmail(email) <==> EmailShape(email)
  {
    if IsValidEmail(email) {
      ValidEmailHasShape(email);
    }
    if EmailShape(email) {
      ShapeIsValidEmail(email);
    }
  }

  /** An accepted address holds exactly one `@` and no whitespace. */
  lemma ValidEmailOneAt(email: string)
    requires IsValidEmail(email)
    ensures forall i | 0 <= i < |email| :: !IsSpace(email[i])
    ensures exists k | 0 <= k < |email| :: email[k] == '@' && forall i | 0 <= i < |email| && i != k :: email[i] != '@'
  {
    var at := FirstIndexOf(email, '@');
    var domain := email[at + 1..];
    assert forall i | 0 <= i < |email| && i != at :: Plain(email[i]) by {
      forall i | 0 <= i < |email| && i != at ensures Plain(email[i]) {
        if i < at {
          assert email[..at][i] == email[i];
        } else {
          assert domain[i - at - 1] == email[i];
        }
      }
    }
  }

  // ---------------------------------------------------------------------
  // The contact form

  /** The notifications the page shows, with their types. */
  datatype Notice =
    | FillAllFields    // 'error'
    | InvalidEmail     // 'error'
    | MessageSent      // 'success'
    | NotAnImage       // 'error'
    | MissingApiKey    // 'error'
    | MissingImage     // 'error'
    | ImageTooLarge    // 'error'

  predicate IsError(n: Notice)
  {
    !n.MessageSent?
  }

  /** The notification a submission produces. */
  function SubmitNotice(name: string, email: string, message: string): Notice
  {
    if name == [] || email == [] || message == [] then FillAllFields
    else if !IsValidEmail(email) then InvalidEmail
    else MessageSent
  }

  /** An empty field is reported whatever the address; an invalid address
      only once every field is filled; success exactly for filled fields
      and a valid address. */
  lemma SubmitOrder(name: string, email: string, message: string)
    ensures name == [] || email == [] || message == [] ==> SubmitNotice(name, email, message) == FillAllFields
    ensures SubmitNotice(name, email, message) == InvalidEmail <==>
            name != [] && email != [] && message != [] && !IsValidEmail(email)
    ensures SubmitNotice(name, email, message) == MessageSent <==>
            name != [] && message != [] && IsValidEmail(email)
    ensures IsError(SubmitNotice(name, email, message)) <==> SubmitNotice(name, email, message) != MessageSent
  {
    if IsValidEmail(email) {
      assert email != [];
    }
  }

  /** The contact form's fields and the notifications shown so far. */
  class ContactForm {
    var name: string
    var email: string
    var message: string
    var notices: seq<Notice>

    constructor ()
      ensures name == [] && email == [] && message == [] && notices == []
    {
      name, email, message, notices := [], [], [], [];
    }

    /** The `submit` handler: one notification; the fields are reset only
        after a successful submission. */
    method Submit()
      modifies this
      ensures notices == old(notices) + [SubmitNotice(old(name), old(email), old(message))]
      ensures notices[|notices| - 1] == MessageSent ==> name == [] && email == [] && message == []
      ensures notices[|notices| - 1] != MessageSent ==>
              name == old(name) && email == old(email) && message == old(message)
    {
      if name == [] || email == [] || message == [] {
        notices := notices + [FillAllFields];
        return;
      }
      if !IsValidEmail(email) {
        notices := notices + [InvalidEmail];
        return;
      }
      notices := notices + [MessageSent];
      name, email, message := [], [], [];
    }
  }

  // ---------------------------------------------------------------------
  // The image preview

  /** A file chosen in the file input. */
  datatype File = File(name: string, mimeType: string, size: nat)

  /** `/^image\//i.test(type)`. */
  predicate IsImageType(t: string)
  {
    |t| >= 6 && forall i | 0 <= i < 6 :: AsciiLower(t[i]) == "image/"[i]
  }

  /** The URL `objectUrlAtual` holds, as a set: the one a revocation
      retires. */
  function Live(u: Option<nat>): (r: set<nat>)
    ensures u.Some? <==> r != {}
    ensures forall x | x in r :: u == Some(x)
  {
    if u.Some? then {u.value} else {}
  }

  /** The preview of the Gemini section: the file input's selection, what
      the preview shows (`None` is the placeholder), whether it is hidden,
      the object URL held in `objectUrlAtual`, the URLs created and revoked
      so far (a URL is its creation number), and the notifications. */
  class Preview {
    var selected: Option<File>
    var shown: Option<File>
    var hidden: bool
    var objectUrl: Option<nat>
    var created: nat
    var revoked: set<nat>
    var notices: seq<Notice>

    /** Hidden exactly when showing the placeholder; a shown file is an
        image with a live URL; and every other URL created is revoked, so
        at most one is alive. */
    predicate Valid()
      reads this
    {
      (hidden <==> shown.None?)
      && (shown.Some? ==> IsImageType(shown.value.mimeType) && objectUrl.Some?)
      && (objectUrl.Some? ==> objectUrl.value < created && objectUrl.value !in revoked)
      && (forall u | 0 <= u < created && objectUrl != Some(u) :: u in revoked)
      && forall u | u in revoked :: u < created
    }

    constructor ()
      ensures Valid() && selected.None? && hidden && objectUrl.None? && created == 0 && notices == []
    {
      selected, shown, hidden, objectUrl := None, None, true, None;
      created, revoked, notices := 0, {}, [];
    }

    /** The user picks a file, or clears the choice. */
    method Select(f: Option<File>)
      modifies this
      ensures selected == f
      ensures shown == old(shown) && hidden == old(hidden) && objectUrl == old(objectUrl)
      ensures created == old(created) && revoked == old(revoked) && notices == old(notices)
    {
      selected := f;
    }

    /** The `change` handler of the file input. A file that is not an image
        is refused: the input is cleared and the placeholder shown, and the
        URL of an earlier image stays alive until the next change. */
    method OnChange()
      requires Valid()
      modifies this
      ensures Valid()
      ensures old(selected).None? ==>
              shown.None? && selected == old(selected) && objectUrl.None? && notices == old(notices)
              && created == old(created) && revoked == old(revoked) + Live(old(objectUrl))
      ensures old(selected).Some? && !IsImageType(old(selected).value.mimeType) ==>
              shown.None? && selected.None? && objectUrl == old(objectUrl) && revoked == old(revoked)
              && created == old(created) && notices == old(notices) + [NotAnImage]
      ensures old(selected).Some? && IsImageType(old(selected).value.mimeType) ==>
              shown == old(selected) && selected == old(selected)
              && objectUrl == Some(old(created)) && created == old(created) + 1
              && revoked == old(revoked) + Live(old(objectUrl)) && notices == old(notices)
    {
      var f := selected;
      if f.None? {
        shown, hidden := None, true;
        if objectUrl.Some? {
          revoked := revoked + {objectUrl.value};
          objectUrl := None;
        }
        return;
      }
      if !IsImageType(f.value.mimeType) {
        notices := notices + [NotAnImage];
        selected := None;
        shown, hidden := None, true;
        return;
      }
      if objectUrl.Some? {
        revoked := revoked + {objectUrl.value};
        objectUrl := None;
      }
      objectUrl := Some(created);
      created := created + 1;
      shown, hidden := f, false;
    }

    /** The `Limpar` button: the placeholder again and the input cleared;
        the URL is not revoked. */
    method Clear()
      requires Valid()
      modifies this
      ensures Valid()
      ensures shown.None? && hidden && selected.None?
      ensures objectUrl == old(objectUrl) && revoked == old(revoked) && notices == old(notices)
    {
      shown, hidden := None, true;
      selected := None;
    }
  }

  // ---------------------------------------------------------------------
  // Before an image is sent

  const MaxImageSize := 4 * 1024 * 1024

  /** The checks of the `Interpretar` button in their order; `None` lets the
      request go ahead. */
  function Precheck(apiKey: string, file: Option<File>): Option<Notice>
  {
    if Trim(apiKey) == [] then Some(MissingApiKey)
    else if file.None? then Some(MissingImage)
    else if file.value.size > MaxImageSize then Some(ImageTooLarge)
    else None
  }

  /** The request goes ahead exactly with a key that is not blank and a
      file of at most 4 MiB; a blank key is reported first, then a missing
      file. */
  lemma PrecheckOrder(apiKey: string, file: Option<File>)
    ensures Precheck(apiKey, file).None? <==>
            !AllSpace(apiKey) && file.Some? && file.value.size <= 4194304
    ensures AllSpace(apiKey) ==> Precheck(apiKey, file) == Some(MissingApiKey)
    ensures !AllSpace(apiKey) && file.None? ==> Precheck(apiKey, file) == Some(MissingImage)
  {
  }
}
