/**
 The account functions as the portal's code runs them: one transaction after
 another over the `portal_users` table.  Each is proved to be the atomic
 function that its interleaved steps amount to (PortalAccounts.SoloRunIsSerial).
 */
module PortalDb {
  import opened Text
  import opened PortalAccounts

  class PortalUsers {
    const schema: Schema
    var users: map<UserId, User>

    constructor (schema: Schema, users: map<UserId, User>)
      ensures this.schema == schema && this.users == users
    {
      this.schema := schema;
      this.users := users;
    }

    method CountOtherSupers(id: UserId) returns (n: nat)
      ensures n == |ActiveSupers(schema, users) - {id}|
    {
      n := |ActiveSupers(schema, users) - {id}|;
    }

    method UpdateUser(id: UserId, email: string, role: RoleId, active: bool, actor: UserId) returns (o: Outcome)
      modifies this`users
      ensures (users, o) == Serial(schema, old(users), PortalAccounts.UpdateUser(id, email, role, active, actor))
    {
      if id !in users { return Refused(NotFound); }
      var cur := users[id];
      var wasSuper, wasActive, willBeSuper := schema.IsSuper(cur.role), cur.active, schema.IsSuper(role);

      // (1) Nobody deactivates or demotes themselves.
      if id == actor {
        if !active { return Refused(SelfDeactivation); }
        if wasSuper && !willBeSuper { return Refused(SelfDemotion); }
      }

      // (2) Nobody deactivates or demotes the last active super_admin.
      if wasSuper && wasActive && (!active || !willBeSuper) {
        var otherSupers := CountOtherSupers(id);
        if otherSupers == 0 { return Refused(LastSuperAdmin); }
      }

      if role !in schema.roles { return Refused(UnknownRole); }
      var changed := if Lower(cur.email) != Lower(email) then 1 else 0;
      users := users[id := User(role, active, email, cur.hash, cur.version + changed)];
      o := Committed;
    }

    method UpdateViewerAsAdmin(id: UserId, email: string, active: bool, mayChangeEmail: bool, hasGrant: bool)
      returns (o: Outcome)
      modifies this`users
      ensures (users, o) == Serial(schema, old(users), UpdateViewer(id, email, active, mayChangeEmail, hasGrant))
    {
      if id !in users { return Refused(NotFound); }
      var cur := users[id];
      if !schema.IsViewer(cur.role) { return Refused(NotAViewer); }
      if !hasGrant { return Refused(NoGrant); }
      var emailChanged := Lower(cur.email) != Lower(email);
      if emailChanged && !mayChangeEmail { return Refused(EmailNotYours); }
      users := users[id := cur.(email := email, active := active,
                                version := cur.version + if emailChanged then 1 else 0)];
      o := Committed;
    }

    method ResetPassword(id: UserId, hash: Hash) returns (o: Outcome)
      modifies this`users
      ensures (users, o) == Serial(schema, old(users), SetPassword(id, hash))
    {
      if id !in users { return Refused(NotFound); }
      users := users[id := users[id].(hash := hash, version := users[id].version + 1)];
      o := Committed;
    }

    /** `current` stands for a password that verifies against that hash. */
    method ChangeOwnPassword(id: UserId, current: Hash, hash: Hash) returns (o: Outcome)
      modifies this`users
      ensures (users, o) == Serial(schema, old(users), PortalAccounts.ChangeOwnPassword(id, current, hash))
    {
      if id !in users || !users[id].active { return Refused(NotFound); }
      if users[id].hash != current { return Refused(WrongPassword); }
      users := users[id := users[id].(hash := hash, version := users[id].version + 1)];
      o := Committed;
    }
  }
}
