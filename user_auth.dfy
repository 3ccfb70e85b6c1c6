/**
 * The storefront's local login: a contact number kept in browser storage
 * under one key, with the authenticated and login-modal flags derived from
 * it. Navigation with `router.push` is modelled as setting the current
 * path.
 */
module UserAuth {
  import LoginModal

  const StorageKey: string := "contactNumber"
  const Home: string := "/"

  /** Browser storage, the current path, and the two flags the hook returns. */
  datatype AuthView = AuthView(storage: map<string, string>, path: string, isAuthenticated: bool, showLoginModal: bool)

  /** `localStorage.getItem('contactNumber')` is truthy: present and non-empty. */
  predicate HasNumber(storage: map<string, string>) {
    StorageKey in storage && storage[StorageKey] != ""
  }

  /**
   * The mount effect: without a number, any page other than the home page
   * redirects home and asks for a login; with a number the user is
   * authenticated and the modal hidden. Storage is only read.
   */
  function Mount(v: AuthView): (r: AuthView)
    ensures r.storage == v.storage
    ensures !HasNumber(v.storage) && v.path != Home ==>
              r == v.(path := Home, showLoginModal := true)
    ensures !HasNumber(v.storage) && v.path == Home ==> r == v
    ensures HasNumber(v.storage) ==> r == v.(isAuthenticated := true, showLoginModal := false)
  {
    if !HasNumber(v.storage) && v.path != Home then v.(path := Home, showLoginModal := true)
    else if HasNumber(v.storage) then v.(isAuthenticated := true, showLoginModal := false)
    else v
  }

  /** `login`: the number is stored under the key, other keys are kept. */
  function Login(v: AuthView, contactNumber: string): (r: AuthView)
    ensures r.storage == v.storage[StorageKey := contactNumber]
    ensures r.isAuthenticated && !r.showLoginModal && r.path == v.path
  {
    v.(storage := v.storage[StorageKey := contactNumber], isAuthenticated := true, showLoginModal := false)
  }

  /** `logout`: the key is removed, other keys are kept, and the user is sent home. */
  function Logout(v: AuthView): (r: AuthView)
    ensures r.storage == v.storage - {StorageKey} && !HasNumber(r.storage)
    ensures !r.isAuthenticated && r.path == Home && r.showLoginModal == v.showLoginModal
  {
    v.(storage := v.storage - {StorageKey}, isAuthenticated := false, path := Home)
  }

  // ---------------------------------------------------------------------------
  // Properties
  // ---------------------------------------------------------------------------

  /** Running the mount effect again (it re-runs when the path changes) changes nothing more. */
  lemma MountIdempotent(v: AuthView)
    ensures Mount(Mount(v)) == Mount(v)
  {
  }

  /**
   * After a login with a non-empty number the mount effect keeps the user
   * authenticated on any page, with the modal hidden.
   */
  lemma LoginSurvivesMount(v: AuthView, contactNumber: string)
    requires contactNumber != ""
    ensures Mount(Login(v, contactNumber)) == Login(v, contactNumber)
  {
  }

  /**
   * Only a number the login modal accepts reaches `login`, and such a
   * number is never empty: a login through the modal survives remounting.
   */
  lemma ModalLoginSurvivesMount(v: AuthView, contactNumber: string)
    requires LoginModal.Validate(contactNumber).None?
    ensures Mount(Login(v, contactNumber)).isAuthenticated
    ensures !Mount(Login(v, contactNumber)).showLoginModal
  {
    assert LoginModal.IsTenDigits(contactNumber);
    LoginSurvivesMount(v, contactNumber);
  }

  /**
   * A login with the empty string is stored but is not truthy: on any page
   * but the home page the next mount asks for a login again.
   */
  lemma EmptyLoginAsksAgain(v: AuthView)
    requires v.path != Home
    ensures Mount(Login(v, "")).showLoginModal && Mount(Login(v, "")).path == Home
  {
  }

  /** After logout the user is home, and remounting there leaves them logged out without the modal opening. */
  lemma LogoutThenMount(v: AuthView)
    ensures Mount(Logout(v)) == Logout(v)
    ensures !Mount(Logout(v)).isAuthenticated
  {
  }

  /** Logging out undoes a login's storage write, and leaves every other key as it was. */
  lemma LogoutUndoesLogin(v: AuthView, contactNumber: string)
    ensures Logout(Login(v, contactNumber)).storage == v.storage - {StorageKey}
    ensures forall k | k in v.storage && k != StorageKey ::
              k in Logout(Login(v, contactNumber)).storage && Logout(Login(v, contactNumber)).storage[k] == v.storage[k]
  {
  }

  /** The hook's state in one component. */
  class Hook {
    var storage: map<string, string>
    var path: string
    var isAuthenticated: bool
    var showLoginModal: bool

    function View(): AuthView
      reads this
    {
      AuthView(storage, path, isAuthenticated, showLoginModal)
    }

    /** Both flags start false. */
    constructor(storage: map<string, string>, path: string)
      ensures View() == AuthView(storage, path, false, false)
    {
      this.storage, this.path := storage, path;
      isAuthenticated, showLoginModal := false, false;
    }

    method MountEffect()
      modifies this
      ensures View() == Mount(old(View()))
    {
      var contactNumber := if StorageKey in storage then storage[StorageKey] else "";
      if contactNumber == "" && path != Home {
        path := Home;
        showLoginModal := true;
        return;
      }
      if contactNumber != "" {
        isAuthenticated := true;
        showLoginModal := false;
      }
    }

    method LoginWith(contactNumber: string)
      modifies this
      ensures View() == Login(old(View()), contactNumber)
    {
      storage := storage[StorageKey := contactNumber];
      isAuthenticated := true;
      showLoginModal := false;
    }

    method LogoutNow()
      modifies this
      ensures View() == Logout(old(View()))
    {
      storage := storage - {StorageKey};
      isAuthenticated := false;
      path := Home;
    }
  }
}
