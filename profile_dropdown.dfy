/** The account menu of components/profile-dropdown.tsx: the avatar and label
    defaults, the typed confirmation that guards account deletion, the
    `deleting`/dialog state around the delete request, and the token removal
    on logout. Replies are inputs; navigation is not modelled. */
module ProfileDropdown {
  import opened Wrappers
  import opened Text
  import opened Http

  const ConfirmWord: string := "delete"
  const TokenKey: string := "token"

  /** `confirmText.trim().toLowerCase() === "delete"`. */
  predicate IsDeleteConfirmation(t: string) {
    Lower(Trim(t)) == ConfirmWord
  }

  /** Surrounding white space never matters to the confirmation. */
  lemma {:induction false} ConfirmIgnoresPadding(pre: string, w: string, post: string)
    requires AllWhite(pre) && AllWhite(post)
    ensures IsDeleteConfirmation(pre + w + post) <==> IsDeleteConfirmation(w)
  {
    TrimIgnoresPadding(pre, w, post);
  }

  /** The word in capitals, as the dialog asks for it, is accepted. */
  lemma CapitalsAccepted()
    ensures IsDeleteConfirmation("DELETE")
  {
    var w := "DELETE";
    assert !IsJsWhitespace(w[0]) && !IsJsWhitespace(w[5]);
    assert TrimStart(w) == w;
    assert TrimEnd(w) == w;
    var l := Lower(w);
    assert l[0] == 'd' && l[1] == 'e' && l[2] == 'l' && l[3] == 'e' && l[4] == 't' && l[5] == 'e';
    assert l == ConfirmWord;
  }

  /** Padded capitals are accepted as well. */
  lemma PaddedCapitalsAccepted()
    ensures IsDeleteConfirmation("  DELETE ")
  {
    CapitalsAccepted();
    assert AllWhite("  ") && AllWhite(" ");
    assert "  DELETE " == "  " + "DELETE" + " ";
    ConfirmIgnoresPadding("  ", "DELETE", " ");
  }

  /** A prefix of the word is not. */
  lemma TruncatedRejected()
    ensures !IsDeleteConfirmation("delet")
  {
    assert |Lower(Trim("delet"))| <= 5;
  }

  /** The confirm button's `disabled` flag. */
  function ConfirmButtonDisabled(confirmText: string, deleting: bool): (r: bool)
    ensures !r <==> IsDeleteConfirmation(confirmText) && !deleting
  {
    !IsDeleteConfirmation(confirmText) || deleting
  }

  /** The optional signed-in user the menu is given. */
  datatype User = User(name: Option<string>, photo: Option<string>, email: Option<string>)

  /** What the avatar shows: the photo when there is a non-empty one,
      otherwise a text fallback. */
  datatype Avatar = Image(src: string) | Fallback(text: string)

  /** `user?.photo ? <image> : user?.name?.[0] ?? "U"`: only a missing user or
      name falls back to "U"; an empty name has no first character, which is
      `undefined` and so also falls back. */
  function AvatarOf(user: Option<User>): (a: Avatar)
    ensures user.Some? && user.value.photo.Some? && user.value.photo.value != [] <==> a.Image?
    ensures a.Image? ==> a.src == user.value.photo.value
    ensures a.Fallback? && user.Some? && user.value.name.Some? && user.value.name.value != [] ==>
      a.text == [user.value.name.value[0]]
    ensures a.Fallback? && !(user.Some? && user.value.name.Some? && user.value.name.value != []) ==>
      a.text == "U"
  {
    if user.Some? && user.value.photo.Some? && user.value.photo.value != [] then Image(user.value.photo.value)
    else if user.Some? && user.value.name.Some? && user.value.name.value != [] then Fallback([user.value.name.value[0]])
    else Fallback("U")
  }

  /** `user?.name ?? "User"` and `user?.email ?? "email"`: `??` replaces only a
      missing value, so an empty name is shown empty. */
  function MenuLabels(user: Option<User>): (r: (string, string))
    ensures user.Some? && user.value.name.Some? ==> r.0 == user.value.name.value
    ensures !(user.Some? && user.value.name.Some?) ==> r.0 == "User"
    ensures user.Some? && user.value.email.Some? ==> r.1 == user.value.email.value
    ensures !(user.Some? && user.value.email.Some?) ==> r.1 == "email"
  {
    var u := user.GetOr(User(None, None, None));
    (u.name.GetOr("User"), u.email.GetOr("email"))
  }

  /** The menu's state; `storage` is the browser's `localStorage`. */
  class Dropdown {
    var isDialogOpen: bool
    var confirmText: string
    var deleting: bool
    var storage: map<string, string>

    constructor (storage0: map<string, string>)
      ensures !isDialogOpen && confirmText == "" && !deleting && storage == storage0
    {
      isDialogOpen, confirmText, deleting := false, "", false;
      storage := storage0;
    }

    /** The dialog's `disabled` flag for the confirm button. */
    function ConfirmDisabled(): (r: bool)
      reads this
      ensures !r <==> IsDeleteConfirmation(confirmText) && !deleting
    {
      ConfirmButtonDisabled(confirmText, deleting)
    }

    /** "Delete Account" in the menu, and the dialog's own open/close. */
    method SetDialogOpen(open: bool)
      modifies this
      ensures isDialogOpen == open
      ensures confirmText == old(confirmText) && deleting == old(deleting) && storage == old(storage)
    {
      isDialogOpen := open;
    }

    /** Typing in the confirmation input. */
    method SetConfirmText(t: string)
      modifies this
      ensures confirmText == t
      ensures isDialogOpen == old(isDialogOpen) && deleting == old(deleting) && storage == old(storage)
    {
      confirmText := t;
    }

    /** `handleDeleteAccount` up to the request: nothing happens unless the
        confirmation is typed; otherwise `deleting` is set and the request
        goes out. */
    method BeginDelete() returns (sent: bool)
      modifies this
      ensures sent <==> IsDeleteConfirmation(confirmText)
      ensures deleting == (sent || old(deleting))
      ensures isDialogOpen == old(isDialogOpen) && confirmText == old(confirmText) && storage == old(storage)
    {
      if !IsDeleteConfirmation(confirmText) {
        return false;
      }
      deleting := true;
      sent := true;
    }

    /** `handleDeleteAccount` after the request: the dialog closes only for an
        ok response, and `deleting` is cleared on every path. */
    method SettleDelete(reply: Reply<()>)
      modifies this
      ensures !deleting
      ensures isDialogOpen == (old(isDialogOpen) && !(reply.Replied? && reply.ok))
      ensures confirmText == old(confirmText) && storage == old(storage)
    {
      if reply.Replied? && reply.ok {
        isDialogOpen := false;
      }
      deleting := false;
    }

    /** The whole `handleDeleteAccount`. */
    method HandleDeleteAccount(reply: Reply<()>) returns (sent: bool)
      modifies this
      ensures sent <==> IsDeleteConfirmation(old(confirmText))
      ensures !sent ==> isDialogOpen == old(isDialogOpen) && deleting == old(deleting)
      ensures sent ==> !deleting && isDialogOpen == (old(isDialogOpen) && !(reply.Replied? && reply.ok))
      ensures confirmText == old(confirmText) && storage == old(storage)
    {
      sent := BeginDelete();
      if sent {
        SettleDelete(reply);
      }
    }

    /** `handleLogout`: the body is parsed before the status is looked at, so
        the token is removed only when the request and the parsing both
        succeed and the status is ok. */
    method HandleLogout(reply: Reply<()>)
      modifies this
      ensures reply.Replied? && reply.ok ==> storage == old(storage) - {TokenKey}
      ensures !(reply.Replied? && reply.ok) ==> storage == old(storage)
      ensures isDialogOpen == old(isDialogOpen) && confirmText == old(confirmText) && deleting == old(deleting)
    {
      if reply.Replied? && reply.ok {
        storage := storage - {TokenKey};
      }
    }
  }
}
