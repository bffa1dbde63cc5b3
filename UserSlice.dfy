/** The client's signed-in user state (the `user` Redux slice): sign-in with a
    generated display name, sign-out, restoring from the browser's storage, and
    editing the name and the avatar. The browser's storage entry `user` is the
    field `stored`; whether a browser window exists is the constant `inBrowser`. */
module UserSlice {
  import opened Wrappers
  import Decimal

  const Adjectives: seq<string> := ["Silent", "Swift", "Hidden", "Mystic", "Shadow", "Phantom", "Quiet", "Invisible"]
  const Nouns: seq<string> := ["Whisper", "Specter", "Ghost", "Echo", "Shade", "Cipher", "Rogue", "Voyager"]

  /** The longest name `updateUsername` keeps. */
  const MaxUsernameLength: nat := 20

  /** `avatar?: string | null`: missing, explicitly none, or a URL. */
  datatype Avatar = Unset | NoAvatar | AvatarUrl(url: string)

  datatype User = User(email: string, username: string, avatar: Avatar)

  /** What `login` receives: a user without a name. */
  datatype LoginPayload = LoginPayload(email: string, avatar: Avatar)

  datatype LoadStatus = Idle | Loading | Succeeded | Failed

  predicate IsLetter(c: char) {
    ('a' <= c <= 'z') || ('A' <= c <= 'Z')
  }

  predicate IsWord(s: string) {
    forall k :: 0 <= k < |s| ==> IsLetter(s[k])
  }

  lemma WordListsAreLetters()
    ensures forall i :: 0 <= i < |Adjectives| ==> IsWord(Adjectives[i]) && 4 <= |Adjectives[i]| <= 9
    ensures forall i :: 0 <= i < |Nouns| ==> IsWord(Nouns[i]) && 4 <= |Nouns[i]| <= 7
  {
  }

  /** `generateRandomUsername`, with its three random picks as inputs: an adjective,
      a noun, and the number `100 + num`, so always three digits. The letters part
      and the digits part can be told apart and the number read back; the whole
      name is at most 19 characters. */
  function GenerateUsername(adj: nat, noun: nat, num: nat): (r: string)
    requires adj < |Adjectives| && noun < |Nouns| && num < 900
    ensures var w := |Adjectives[adj]| + |Nouns[noun]|;
            && |r| == w + 3 && |r| <= 19
            && r[..|Adjectives[adj]|] == Adjectives[adj]
            && r[|Adjectives[adj]|..w] == Nouns[noun]
            && IsWord(r[..w])
            && Decimal.IsDigits(r[w..]) && Decimal.ParseDecimal(r[w..]) == num + 100
  {
    WordListsAreLetters();
    Decimal.ThreeDigits(num + 100);
    Decimal.ParseDecimalString(num + 100);
    var r := Adjectives[adj] + Nouns[noun] + Decimal.DecimalString(num + 100);
    assert r[..|Adjectives[adj]| + |Nouns[noun]|] == Adjectives[adj] + Nouns[noun];
    r
  }

  /** `s.slice(0, n)`. */
  function Take(s: string, n: nat): (r: string)
    ensures |r| <= n && |r| <= |s|
    ensures r == s[..|r|]
    ensures |s| <= n ==> r == s
    ensures |s| > n ==> |r| == n
  {
    if |s| <= n then s else s[..n]
  }

  /** A generated name is never cut by the 20-character limit. */
  lemma GeneratedNameFits(adj: nat, noun: nat, num: nat)
    requires adj < |Adjectives| && noun < |Nouns| && num < 900
    ensures Take(GenerateUsername(adj, noun, num), MaxUsernameLength) == GenerateUsername(adj, noun, num)
  {
  }

  class UserSlice {
    var user: Option<User>
    var status: LoadStatus
    var stored: Option<User>
    const inBrowser: bool

    /** In a browser the stored copy is the signed-in user, and a user is present
        exactly when the status is `succeeded`; `failed` is never reached. */
    ghost predicate Valid()
      reads this
    {
      && (inBrowser && user.Some? ==> stored == user)
      && (inBrowser ==> (user.Some? <==> status == Succeeded))
      && status != Failed
    }

    /** The initial state; `storage` is what the browser holds from an earlier visit. */
    constructor (browser: bool, storage: Option<User>)
      ensures Valid()
      ensures user.None? && status == Idle
      ensures inBrowser == browser && stored == storage
    {
      user := None;
      status := Idle;
      stored := storage;
      inBrowser := browser;
    }

    /** `login`: the payload with a generated name (any name it carried is replaced). */
    method Login(payload: LoginPayload, adj: nat, noun: nat, num: nat)
      requires Valid()
      requires adj < |Adjectives| && noun < |Nouns| && num < 900
      modifies this
      ensures Valid()
      ensures user == Some(User(payload.email, GenerateUsername(adj, noun, num), payload.avatar))
      ensures status == Succeeded
      ensures stored == if inBrowser then user else old(stored)
    {
      var u := User(payload.email, GenerateUsername(adj, noun, num), payload.avatar);
      user := Some(u);
      status := Succeeded;
      if inBrowser {
        stored := Some(u);
      }
    }

    /** `logout`: no user, idle, and the stored copy is removed. */
    method Logout()
      requires Valid()
      modifies this
      ensures Valid()
      ensures user.None? && status == Idle
      ensures stored == if inBrowser then None else old(stored)
    {
      user := None;
      status := Idle;
      if inBrowser {
        stored := None;
      }
    }

    /** `initializeUser`: in a browser, restore the stored user or fall back to idle;
        outside a browser the status stays `loading`. */
    method InitializeUser()
      requires Valid()
      modifies this
      ensures Valid()
      ensures inBrowser && old(stored).Some? ==> user == old(stored) && status == Succeeded
      ensures inBrowser && old(stored).None? ==> user == old(user) && user.None? && status == Idle
      ensures !inBrowser ==> user == old(user) && status == Loading
      ensures stored == old(stored)
    {
      status := Loading;
      if inBrowser {
        if stored.Some? {
          user := stored;
          status := Succeeded;
        } else {
          status := Idle;
        }
      }
    }

    /** `updateUsername`: the first 20 characters of the new name, when signed in. */
    method UpdateUsername(name: string)
      requires Valid()
      modifies this
      ensures Valid()
      ensures old(user).None? ==> user == old(user) && stored == old(stored)
      ensures old(user).Some? ==>
                && user == Some(old(user).value.(username := Take(name, MaxUsernameLength)))
                && stored == if inBrowser then user else old(stored)
      ensures status == old(status)
    {
      if user.Some? {
        user := Some(user.value.(username := Take(name, MaxUsernameLength)));
        if inBrowser {
          stored := user;
        }
      }
    }

    /** `updateAvatar`, when signed in. */
    method UpdateAvatar(avatar: Avatar)
      requires Valid()
      modifies this
      ensures Valid()
      ensures old(user).None? ==> user == old(user) && stored == old(stored)
      ensures old(user).Some? ==>
                && user == Some(old(user).value.(avatar := avatar))
                && stored == if inBrowser then user else old(stored)
      ensures status == old(status)
    {
      if user.Some? {
        user := Some(user.value.(avatar := avatar));
        if inBrowser {
          stored := user;
        }
      }
    }
  }
}
