/**
 * Who may open the admin order form: a logged-in user with the manage_woocommerce capability,
 * a role in the allowed-roles setting, or an id in the allowed-users setting. The settings are
 * JSON stored in the settings table; `json_decode` is taken as given, as the decoded value
 * stored next to the raw text.
 */
module AdminOrderFormAccess {
  import opened Wrappers
  import opened PhpValues

  /** The result of `json_decode($text, true)`; objects are kept as the list of their values. */
  datatype Json = JNull | JBool(b: bool) | JInt(i: int) | JString(s: string) | JArray(values: seq<Json>)

  /** A settings row: absent, or its raw text together with what that text decodes to. */
  datatype Setting = Missing | Stored(raw: string, decoded: Json)

  datatype User = User(roles: seq<string>, canManageWoocommerce: bool)

  datatype RenderOutcome = LoginRequired | AccessDenied | V2NotEnabled | Form

  const DefaultAllowedRoles: seq<Json> := [JString("administrator")]

  /** `$result` is truthy and decodes to a non-empty array. */
  predicate UsableList(setting: Setting)
  {
    setting.Stored? && !EmptyString(setting.raw) && setting.decoded.JArray? && |setting.decoded.values| > 0
  }

  /** get_allowed_roles: the stored list when it is a non-empty array, otherwise ['administrator']. */
  function AllowedRoles(setting: Setting): (roles: seq<Json>)
    ensures |roles| > 0
    ensures UsableList(setting) ==> roles == setting.decoded.values
    ensures !UsableList(setting) ==> roles == DefaultAllowedRoles
  {
    if UsableList(setting) then setting.decoded.values else DefaultAllowedRoles
  }

  /** PHP's intval() of a decoded JSON value. */
  function JsonIntVal(v: Json): int
  {
    match v
    case JNull => 0
    case JBool(b) => if b then 1 else 0
    case JInt(i) => i
    case JString(s) => IntVal(s)
    case JArray(values) => if values == [] then 0 else 1
  }

  /** get_allowed_users: the stored list mapped through intval when it is a non-empty array, otherwise empty. */
  function AllowedUsers(setting: Setting): (users: seq<int>)
    ensures !UsableList(setting) ==> users == []
    ensures UsableList(setting) ==>
              |users| == |setting.decoded.values|
              && forall i :: 0 <= i < |users| ==> users[i] == JsonIntVal(setting.decoded.values[i])
  {
    if UsableList(setting) then
      seq(|setting.decoded.values|, i requires 0 <= i < |setting.decoded.values| => JsonIntVal(setting.decoded.values[i]))
    else []
  }

  /** The role loop: some role of the user is, strictly, a string of the allowed list. */
  function RoleAllowed(roles: seq<string>, allowed: seq<Json>): (r: bool)
    ensures r <==> exists i :: 0 <= i < |roles| && JString(roles[i]) in allowed
  {
    if roles == [] then false
    else if JString(roles[0]) in allowed then true
    else
      var rest := RoleAllowed(roles[1..], allowed);
      assert rest <==> exists i :: 1 <= i < |roles| && JString(roles[i]) in allowed by {
        if rest {
          var i :| 0 <= i < |roles[1..]| && JString(roles[1..][i]) in allowed;
          assert JString(roles[i + 1]) in allowed;
        }
        if exists i :: 1 <= i < |roles| && JString(roles[i]) in allowed {
          var i :| 1 <= i < |roles| && JString(roles[i]) in allowed;
          assert JString(roles[1..][i - 1]) in allowed;
        }
      }
      rest
  }

  /**
   * user_has_access: no user id or no user record denies; the manage_woocommerce capability
   * grants; otherwise an allowed role or an allowed user id grants, and nothing else does.
   */
  function UserHasAccess(userId: int, user: Option<User>, rolesSetting: Setting, usersSetting: Setting): (ok: bool)
    ensures userId == 0 || user.None? ==> !ok
    ensures userId != 0 && user.Some? && user.value.canManageWoocommerce ==> ok
    ensures userId != 0 && user.Some? && !user.value.canManageWoocommerce ==>
              (ok <==> (exists i :: 0 <= i < |user.value.roles| && JString(user.value.roles[i]) in AllowedRoles(rolesSetting))
                       || userId in AllowedUsers(usersSetting))
  {
    if userId == 0 then false
    else if user.None? then false
    else if user.value.canManageWoocommerce then true
    else if RoleAllowed(user.value.roles, AllowedRoles(rolesSetting)) then true
    else AllowedUsers(usersSetting) != [] && userId in AllowedUsers(usersSetting)
  }

  /** With no usable settings only administrators and shop managers get in, and no id is let in by the users list. */
  lemma DefaultsAdmitAdministrators(userId: int, user: User, rolesSetting: Setting, usersSetting: Setting)
    requires userId != 0 && !UsableList(rolesSetting) && !UsableList(usersSetting)
    ensures UserHasAccess(userId, Some(user), rolesSetting, usersSetting)
            <==> user.canManageWoocommerce || "administrator" in user.roles
  {
    if "administrator" in user.roles {
      var i :| 0 <= i < |user.roles| && user.roles[i] == "administrator";
      assert JString(user.roles[i]) in AllowedRoles(rolesSetting);
    }
  }

  /** An id in the allowed-users list grants access whatever the roles. */
  lemma ListedUserGetsIn(userId: int, user: User, rolesSetting: Setting, usersSetting: Setting)
    requires userId != 0 && userId in AllowedUsers(usersSetting)
    ensures UserHasAccess(userId, Some(user), rolesSetting, usersSetting)
  {
  }

  /** render: login first, then access, then the V2 pricing engine; the first failing check decides. */
  function Render(userId: int, user: Option<User>, rolesSetting: Setting, usersSetting: Setting, v2Enabled: bool): (r: RenderOutcome)
    ensures userId == 0 <==> r == LoginRequired
    ensures r == AccessDenied <==> userId != 0 && !UserHasAccess(userId, user, rolesSetting, usersSetting)
    ensures r == V2NotEnabled <==> UserHasAccess(userId, user, rolesSetting, usersSetting) && !v2Enabled
    ensures r == Form <==> UserHasAccess(userId, user, rolesSetting, usersSetting) && v2Enabled
  {
    if userId == 0 then LoginRequired
    else if !UserHasAccess(userId, user, rolesSetting, usersSetting) then AccessDenied
    else if !v2Enabled then V2NotEnabled
    else Form
  }
}
