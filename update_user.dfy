/** The admin's partial update of a user: provided fields overwrite, omitted
    fields keep their value, and `updated_at` is always refreshed. */
module UpdateUser {
  import opened Wrappers
  import opened Text
  import opened Schema
  import opened Store

  const EmailTaken := "duplicate key value violates unique constraint \"users_email_unique\""

  /** The profile after applying the provided fields of a patch. */
  function PatchProfile(p: Profile, patch: ProfilePatch): Profile {
    Profile(
      patch.namaPerguruanTinggi.GetOr(p.namaPerguruanTinggi),
      patch.namaKepalaPerpustakaan.GetOr(p.namaKepalaPerpustakaan),
      patch.noHpKepala.GetOr(p.noHpKepala),
      patch.instansi.GetOr(p.instansi),
      patch.namaPic.GetOr(p.namaPic),
      patch.noHpPic.GetOr(p.noHpPic),
      patch.alamatLengkap.GetOr(p.alamatLengkap),
      patch.provinsi.GetOr(p.provinsi),
      patch.emailInstitusi.GetOr(p.emailInstitusi),
      patch.urlWebsite.GetOr(p.urlWebsite),
      patch.urlOtomasi.GetOr(p.urlOtomasi),
      patch.repositoryStatus.GetOr(p.repositoryStatus),
      patch.jumlahKoleksi.GetOr(p.jumlahKoleksi),
      patch.statusAkreditasi.GetOr(p.statusAkreditasi),
      patch.jenisKeanggotaan.GetOr(p.jenisKeanggotaan))
  }

  /** A patch that supplies every profile field replaces the whole profile,
      whatever it was before. */
  lemma FullPatchReplacesProfile(current: Profile, p: Profile)
    ensures PatchProfile(current, FullPatch(p)) == p
  {
  }

  /** The user row after the update; the columns the input cannot name are kept. */
  function ApplyUpdate(u: User, input: UpdateUserInput, now: Timestamp): (v: User)
    ensures v.id == u.id && v.role == u.role && v.passwordHash == u.passwordHash && v.createdAt == u.createdAt
    ensures v.updatedAt == now
  {
    u.(email := input.email.GetOr(u.email),
       profile := PatchProfile(u.profile, input.patch),
       membershipStatus := input.membershipStatus.GetOr(u.membershipStatus),
       updatedAt := now)
  }

  /** Field by field: a provided value is taken, an omitted field keeps the old value. */
  lemma ProvidedOverwritesOmittedKeeps(u: User, input: UpdateUserInput, now: Timestamp)
    ensures var v := ApplyUpdate(u, input, now);
      var p, q, patch := u.profile, v.profile, input.patch;
      && (input.email.Some? ==> v.email == input.email.value) && (input.email.None? ==> v.email == u.email)
      && (input.membershipStatus.Some? ==> v.membershipStatus == input.membershipStatus.value)
      && (input.membershipStatus.None? ==> v.membershipStatus == u.membershipStatus)
      && (patch.namaPerguruanTinggi.Some? ==> q.namaPerguruanTinggi == patch.namaPerguruanTinggi.value)
      && (patch.namaPerguruanTinggi.None? ==> q.namaPerguruanTinggi == p.namaPerguruanTinggi)
      && (patch.namaKepalaPerpustakaan.Some? ==> q.namaKepalaPerpustakaan == patch.namaKepalaPerpustakaan.value)
      && (patch.namaKepalaPerpustakaan.None? ==> q.namaKepalaPerpustakaan == p.namaKepalaPerpustakaan)
      && (patch.noHpKepala.Some? ==> q.noHpKepala == patch.noHpKepala.value)
      && (patch.noHpKepala.None? ==> q.noHpKepala == p.noHpKepala)
      && (patch.instansi.Some? ==> q.instansi == patch.instansi.value)
      && (patch.instansi.None? ==> q.instansi == p.instansi)
      && (patch.namaPic.Some? ==> q.namaPic == patch.namaPic.value)
      && (patch.namaPic.None? ==> q.namaPic == p.namaPic)
      && (patch.noHpPic.Some? ==> q.noHpPic == patch.noHpPic.value)
      && (patch.noHpPic.None? ==> q.noHpPic == p.noHpPic)
      && (patch.alamatLengkap.Some? ==> q.alamatLengkap == patch.alamatLengkap.value)
      && (patch.alamatLengkap.None? ==> q.alamatLengkap == p.alamatLengkap)
      && (patch.provinsi.Some? ==> q.provinsi == patch.provinsi.value)
      && (patch.provinsi.None? ==> q.provinsi == p.provinsi)
      && (patch.emailInstitusi.Some? ==> q.emailInstitusi == patch.emailInstitusi.value)
      && (patch.emailInstitusi.None? ==> q.emailInstitusi == p.emailInstitusi)
      && (patch.urlWebsite.Some? ==> q.urlWebsite == patch.urlWebsite.value)
      && (patch.urlWebsite.None? ==> q.urlWebsite == p.urlWebsite)
      && (patch.urlOtomasi.Some? ==> q.urlOtomasi == patch.urlOtomasi.value)
      && (patch.urlOtomasi.None? ==> q.urlOtomasi == p.urlOtomasi)
      && (patch.repositoryStatus.Some? ==> q.repositoryStatus == patch.repositoryStatus.value)
      && (patch.repositoryStatus.None? ==> q.repositoryStatus == p.repositoryStatus)
      && (patch.jumlahKoleksi.Some? ==> q.jumlahKoleksi == patch.jumlahKoleksi.value)
      && (patch.jumlahKoleksi.None? ==> q.jumlahKoleksi == p.jumlahKoleksi)
      && (patch.statusAkreditasi.Some? ==> q.statusAkreditasi == patch.statusAkreditasi.value)
      && (patch.statusAkreditasi.None? ==> q.statusAkreditasi == p.statusAkreditasi)
      && (patch.jenisKeanggotaan.Some? ==> q.jenisKeanggotaan == patch.jenisKeanggotaan.value)
      && (patch.jenisKeanggotaan.None? ==> q.jenisKeanggotaan == p.jenisKeanggotaan)
  {
  }

  /** An update that provides no field still refreshes `updated_at`, and only that. */
  lemma EmptyUpdateOnlyBumpsTimestamp(u: User, id: int, now: Timestamp)
    ensures ApplyUpdate(u, UpdateUserInput(id, None, EmptyPatch, None), now) == u.(updatedAt := now)
  {
  }

  /** Applying the same update twice is applying it once, up to the timestamp. */
  lemma ApplyUpdateIdempotent(u: User, input: UpdateUserInput, now1: Timestamp, now2: Timestamp)
    ensures ApplyUpdate(ApplyUpdate(u, input, now1), input, now2) == ApplyUpdate(u, input, now2)
  {
  }

  /** The new e-mail already belongs to another user row. */
  predicate EmailHeldByOther(users: map<int, User>, email: string, id: int) {
    exists other :: other in users && other != id && users[other].email == email
  }

  /** One call of the handler. */
  function UpdateUserStep(t: Tables, input: UpdateUserInput, now: Timestamp): Step<User> {
    if input.id !in t.users then Step(Err("User with id " + IntToString(input.id) + " not found"), t)
    else if input.email.Some? && EmailHeldByOther(t.users, input.email.value, input.id) then
      Step(Err(EmailTaken), t)
    else
      var v := ApplyUpdate(t.users[input.id], input, now);
      Step(Ok(v), t.(users := t.users[input.id := v]))
  }

  /** An unknown id is rejected with its id in the message; only the row with
      the input's id changes, and it is what is returned. */
  lemma UpdateChangesOnlyTarget(t: Tables, input: UpdateUserInput, now: Timestamp)
    ensures var s := UpdateUserStep(t, input, now);
      && (input.id !in t.users ==> s == Step(Err("User with id " + IntToString(input.id) + " not found"), t))
      && (s.result.Ok? <==>
            input.id in t.users && !(input.email.Some? && EmailHeldByOther(t.users, input.email.value, input.id)))
      && (input.id in t.users && input.email.Some? && EmailHeldByOther(t.users, input.email.value, input.id) ==>
            s == Step(Err(EmailTaken), t))
      && (s.result.Err? ==> s.after == t)
      && (s.result.Ok? ==>
            && input.id in t.users
            && s.after == t.(users := t.users[input.id := s.result.value])
            && s.result.value == ApplyUpdate(t.users[input.id], input, now)
            && (forall id :: id in t.users && id != input.id ==> s.after.users[id] == t.users[id]))
  {
  }

  lemma UpdateUserPreservesConsistency(t: Tables, input: UpdateUserInput, now: Timestamp)
    requires Consistent(t)
    ensures Consistent(UpdateUserStep(t, input, now).after)
  {
    var s := UpdateUserStep(t, input, now);
    if s.result.Ok? {
      var users := s.after.users;
      assert forall a, b :: a in users && b in users && users[a].email == users[b].email ==> a == b;
    }
  }

  /** `if (input.field !== undefined) updateData.field = input.field`. */
  method Provided<T>(current: T, input: Option<T>) returns (value: T)
    ensures value == input.GetOr(current)
  {
    value := current;
    if input.Some? {
      value := input.value;
    }
  }

  /** The handler: builds the new row field by field, then writes it. */
  method UpdateUser(db: Database, input: UpdateUserInput, now: Timestamp) returns (r: Result<User>)
    requires db.Valid()
    modifies db
    ensures db.Valid()
    ensures Step(r, db.Snapshot()) == UpdateUserStep(old(db.Snapshot()), input, now)
  {
    UpdateUserPreservesConsistency(db.Snapshot(), input, now);
    if input.id !in db.users {
      return Err("User with id " + IntToString(input.id) + " not found");
    }
    var existing := db.users[input.id];

    var email := Provided(existing.email, input.email);
    var p, patch := existing.profile, input.patch;
    var namaPerguruanTinggi := Provided(p.namaPerguruanTinggi, patch.namaPerguruanTinggi);
    var namaKepalaPerpustakaan := Provided(p.namaKepalaPerpustakaan, patch.namaKepalaPerpustakaan);
    var noHpKepala := Provided(p.noHpKepala, patch.noHpKepala);
    var instansi := Provided(p.instansi, patch.instansi);
    var namaPic := Provided(p.namaPic, patch.namaPic);
    var noHpPic := Provided(p.noHpPic, patch.noHpPic);
    var alamatLengkap := Provided(p.alamatLengkap, patch.alamatLengkap);
    var provinsi := Provided(p.provinsi, patch.provinsi);
    var emailInstitusi := Provided(p.emailInstitusi, patch.emailInstitusi);
    var urlWebsite := Provided(p.urlWebsite, patch.urlWebsite);
    var urlOtomasi := Provided(p.urlOtomasi, patch.urlOtomasi);
    var repositoryStatus := Provided(p.repositoryStatus, patch.repositoryStatus);
    var jumlahKoleksi := Provided(p.jumlahKoleksi, patch.jumlahKoleksi);
    var statusAkreditasi := Provided(p.statusAkreditasi, patch.statusAkreditasi);
    var jenisKeanggotaan := Provided(p.jenisKeanggotaan, patch.jenisKeanggotaan);
    var membershipStatus := Provided(existing.membershipStatus, input.membershipStatus);
    var updateData := existing.(
      email := email,
      profile := Profile(
        namaPerguruanTinggi,
        namaKepalaPerpustakaan,
        noHpKepala,
        instansi,
        namaPic,
        noHpPic,
        alamatLengkap,
        provinsi,
        emailInstitusi,
        urlWebsite,
        urlOtomasi,
        repositoryStatus,
        jumlahKoleksi,
        statusAkreditasi,
        jenisKeanggotaan),
      membershipStatus := membershipStatus,
      updatedAt := now);

    // The unique index on `email` rejects the write.
    if input.email.Some? && EmailHeldByOther(db.users, input.email.value, input.id) {
      return Err(EmailTaken);
    }
    db.users := db.users[input.id := updateData];
    r := Ok(updateData);
  }
}
