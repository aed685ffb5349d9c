/** The entities of the membership backend (users, payments, documents), the
    enums of the relational schema and the input schemas the API validates. */
module Schema {
  import opened Wrappers

  /** Millisecond timestamps (`Date.now()`, `new Date()`, `defaultNow()`), kept opaque. */
  type Timestamp = nat

  datatype Provinsi = JawaTimur | JawaBarat | JawaTengah
  datatype RepositoryStatus = Belum | Sudah
  datatype StatusAkreditasi = AkreditasiA | AkreditasiB | BelumAkreditasi
  datatype JenisKeanggotaan = PendaftaranBaru | Perpanjangan
  datatype UserRole = Member | Admin

  datatype MembershipStatus = Pending | Active | Expired | Inactive {
    function Label(): string {
      match this
      case Pending => "pending"
      case Active => "active"
      case Expired => "expired"
      case Inactive => "inactive"
    }
  }

  datatype PaymentStatus = Pending | Paid | Failed | Expired {
    function Label(): string {
      match this
      case Pending => "pending"
      case Paid => "paid"
      case Failed => "failed"
      case Expired => "expired"
    }
  }

  datatype DocumentType = TransferProof | Receipt | Certificate {
    function Label(): string {
      match this
      case TransferProof => "transfer_proof"
      case Receipt => "receipt"
      case Certificate => "certificate"
    }
  }

  /** The enum check of `membershipStatusEnum`: exactly four strings are accepted. */
  function ParseMembershipStatus(s: string): (r: Option<MembershipStatus>)
    ensures r.Some? <==> s in {"pending", "active", "expired", "inactive"}
    ensures r.Some? ==> r.value.Label() == s
  {
    if s == "pending" then Some(MembershipStatus.Pending)
    else if s == "active" then Some(MembershipStatus.Active)
    else if s == "expired" then Some(MembershipStatus.Expired)
    else if s == "inactive" then Some(MembershipStatus.Inactive)
    else None
  }

  /** The enum check of `paymentStatusEnum`: exactly four strings are accepted. */
  function ParsePaymentStatus(s: string): (r: Option<PaymentStatus>)
    ensures r.Some? <==> s in {"pending", "paid", "failed", "expired"}
    ensures r.Some? ==> r.value.Label() == s
  {
    if s == "pending" then Some(PaymentStatus.Pending)
    else if s == "paid" then Some(PaymentStatus.Paid)
    else if s == "failed" then Some(PaymentStatus.Failed)
    else if s == "expired" then Some(PaymentStatus.Expired)
    else None
  }

  /** The enum check of `documentTypeEnum`: exactly three strings are accepted. */
  function ParseDocumentType(s: string): (r: Option<DocumentType>)
    ensures r.Some? <==> s in {"transfer_proof", "receipt", "certificate"}
    ensures r.Some? ==> r.value.Label() == s
  {
    if s == "transfer_proof" then Some(TransferProof)
    else if s == "receipt" then Some(Receipt)
    else if s == "certificate" then Some(Certificate)
    else None
  }

  /** Every enum value is recovered from its label, so the labels are pairwise distinct. */
  lemma LabelsRoundTrip(m: MembershipStatus, p: PaymentStatus, d: DocumentType)
    ensures ParseMembershipStatus(m.Label()) == Some(m)
    ensures ParsePaymentStatus(p.Label()) == Some(p)
    ensures ParseDocumentType(d.Label()) == Some(d)
  {
  }

  /** The institutional profile of a member (the descriptive columns of `users`). */
  datatype Profile = Profile(
    namaPerguruanTinggi: string,
    namaKepalaPerpustakaan: string,
    noHpKepala: string,
    instansi: string,
    namaPic: string,
    noHpPic: string,
    alamatLengkap: string,
    provinsi: Provinsi,
    emailInstitusi: string,
    urlWebsite: string,
    urlOtomasi: string,
    repositoryStatus: RepositoryStatus,
    jumlahKoleksi: int,
    statusAkreditasi: StatusAkreditasi,
    jenisKeanggotaan: JenisKeanggotaan)

  /** A row of `users`. */
  datatype User = User(
    id: int,
    email: string,
    passwordHash: string,
    role: UserRole,
    profile: Profile,
    membershipStatus: MembershipStatus,
    createdAt: Timestamp,
    updatedAt: Timestamp)

  /** A row of `payments`; `amount` is `numeric(10,2)` held as integer cents. */
  datatype Payment = Payment(
    id: int,
    userId: int,
    orderId: string,
    transactionId: Option<string>,
    amount: int,
    status: PaymentStatus,
    paymentType: Option<string>,
    transactionTime: Option<Timestamp>,
    settlementTime: Option<Timestamp>,
    createdAt: Timestamp,
    updatedAt: Timestamp)

  /** A row of `documents`. */
  datatype Document = Document(
    id: int,
    userId: int,
    documentType: DocumentType,
    fileName: string,
    filePath: string,
    fileSize: Option<int>,
    mimeType: Option<string>,
    downloadToken: Option<string>,
    createdAt: Timestamp,
    updatedAt: Timestamp)

  datatype RegistrationInput = RegistrationInput(email: string, password: string, profile: Profile)

  datatype LoginInput = LoginInput(email: string, password: string)

  /** The optional fields of an update of the profile columns. */
  datatype ProfilePatch = ProfilePatch(
    namaPerguruanTinggi: Option<string>,
    namaKepalaPerpustakaan: Option<string>,
    noHpKepala: Option<string>,
    instansi: Option<string>,
    namaPic: Option<string>,
    noHpPic: Option<string>,
    alamatLengkap: Option<string>,
    provinsi: Option<Provinsi>,
    emailInstitusi: Option<string>,
    urlWebsite: Option<string>,
    urlOtomasi: Option<string>,
    repositoryStatus: Option<RepositoryStatus>,
    jumlahKoleksi: Option<int>,
    statusAkreditasi: Option<StatusAkreditasi>,
    jenisKeanggotaan: Option<JenisKeanggotaan>)

  datatype UpdateUserInput = UpdateUserInput(
    id: int,
    email: Option<string>,
    patch: ProfilePatch,
    membershipStatus: Option<MembershipStatus>)

  /** The gateway's notification payload; the last four fields are optional. */
  datatype MidtransWebhook = MidtransWebhook(
    orderId: string,
    statusCode: string,
    grossAmount: string,
    signatureKey: string,
    transactionStatus: string,
    transactionId: Option<string>,
    paymentType: Option<string>,
    transactionTime: Option<string>,
    settlementTime: Option<string>)

  datatype FileUploadInput = FileUploadInput(
    userId: int,
    documentType: DocumentType,
    fileName: string,
    filePath: string,
    fileSize: Option<int>,
    mimeType: Option<string>)

  datatype CreatePaymentInput = CreatePaymentInput(userId: int, amount: int)

  datatype UserListFilter = UserListFilter(
    membershipStatus: Option<MembershipStatus>,
    provinsi: Option<Provinsi>,
    jenisKeanggotaan: Option<JenisKeanggotaan>,
    limit: Option<int>,
    offset: Option<int>)

  /** The profile constraints shared by registration: required texts non-empty,
      e-mail and URL formats (left to the given predicates), a non-negative collection size. */
  predicate ValidProfile(p: Profile, isEmail: string -> bool, isUrl: string -> bool) {
    && p.namaPerguruanTinggi != ""
    && p.namaKepalaPerpustakaan != ""
    && p.noHpKepala != ""
    && p.instansi != ""
    && p.namaPic != ""
    && p.noHpPic != ""
    && p.alamatLengkap != ""
    && isEmail(p.emailInstitusi)
    && isUrl(p.urlWebsite)
    && isUrl(p.urlOtomasi)
    && p.jumlahKoleksi >= 0
  }

  predicate ValidRegistration(r: RegistrationInput, isEmail: string -> bool, isUrl: string -> bool) {
    isEmail(r.email) && |r.password| >= 6 && ValidProfile(r.profile, isEmail, isUrl)
  }

  predicate ValidLogin(l: LoginInput, isEmail: string -> bool) {
    isEmail(l.email) && |l.password| >= 1
  }

  /** The same constraints as registration, each applied only when its field is present. */
  predicate ValidPatch(p: ProfilePatch, isEmail: string -> bool, isUrl: string -> bool) {
    && (p.namaPerguruanTinggi.Some? ==> p.namaPerguruanTinggi.value != "")
    && (p.namaKepalaPerpustakaan.Some? ==> p.namaKepalaPerpustakaan.value != "")
    && (p.noHpKepala.Some? ==> p.noHpKepala.value != "")
    && (p.instansi.Some? ==> p.instansi.value != "")
    && (p.namaPic.Some? ==> p.namaPic.value != "")
    && (p.noHpPic.Some? ==> p.noHpPic.value != "")
    && (p.alamatLengkap.Some? ==> p.alamatLengkap.value != "")
    && (p.emailInstitusi.Some? ==> isEmail(p.emailInstitusi.value))
    && (p.urlWebsite.Some? ==> isUrl(p.urlWebsite.value))
    && (p.urlOtomasi.Some? ==> isUrl(p.urlOtomasi.value))
    && (p.jumlahKoleksi.Some? ==> p.jumlahKoleksi.value >= 0)
  }

  predicate ValidUpdate(u: UpdateUserInput, isEmail: string -> bool, isUrl: string -> bool) {
    (u.email.Some? ==> isEmail(u.email.value)) && ValidPatch(u.patch, isEmail, isUrl)
  }

  /** The patch that sets every profile field to the given profile's value. */
  function FullPatch(p: Profile): (q: ProfilePatch)
    ensures q.namaPerguruanTinggi == Some(p.namaPerguruanTinggi)
    ensures q.namaKepalaPerpustakaan == Some(p.namaKepalaPerpustakaan) && q.noHpKepala == Some(p.noHpKepala)
    ensures q.instansi == Some(p.instansi) && q.namaPic == Some(p.namaPic) && q.noHpPic == Some(p.noHpPic)
    ensures q.alamatLengkap == Some(p.alamatLengkap) && q.provinsi == Some(p.provinsi)
    ensures q.emailInstitusi == Some(p.emailInstitusi) && q.urlWebsite == Some(p.urlWebsite)
    ensures q.urlOtomasi == Some(p.urlOtomasi) && q.repositoryStatus == Some(p.repositoryStatus)
    ensures q.jumlahKoleksi == Some(p.jumlahKoleksi) && q.statusAkreditasi == Some(p.statusAkreditasi)
    ensures q.jenisKeanggotaan == Some(p.jenisKeanggotaan)
  {
    ProfilePatch(
      Some(p.namaPerguruanTinggi), Some(p.namaKepalaPerpustakaan), Some(p.noHpKepala),
      Some(p.instansi), Some(p.namaPic), Some(p.noHpPic), Some(p.alamatLengkap),
      Some(p.provinsi), Some(p.emailInstitusi), Some(p.urlWebsite), Some(p.urlOtomasi),
      Some(p.repositoryStatus), Some(p.jumlahKoleksi), Some(p.statusAkreditasi),
      Some(p.jenisKeanggotaan))
  }

  const EmptyPatch := ProfilePatch(None, None, None, None, None, None, None, None,
                                   None, None, None, None, None, None, None)

  /** Every update field except the id is optional (an id-only update is valid),
      and present fields obey the registration constraints: the values of a valid
      registration form a valid update. */
  lemma UpdateSchemaAgreesWithRegistration(r: RegistrationInput, id: int, isEmail: string -> bool, isUrl: string -> bool)
    ensures ValidUpdate(UpdateUserInput(id, None, EmptyPatch, None), isEmail, isUrl)
    ensures ValidRegistration(r, isEmail, isUrl) ==>
              ValidUpdate(UpdateUserInput(id, Some(r.email), FullPatch(r.profile), None), isEmail, isUrl)
  {
  }

  predicate ValidCreatePayment(c: CreatePaymentInput) {
    c.amount > 0
  }

  predicate ValidListFilter(f: UserListFilter) {
    (f.limit.Some? ==> f.limit.value > 0) && (f.offset.Some? ==> f.offset.value >= 0)
  }
}
