/** The admin handlers of routes/admin.js as methods of one object holding
    the state they change: the `products`, `site_settings` and `admin`
    tables, the files in `uploads/` and the session's user. Database
    failures are an input: `fault == Some(k)` makes the handler's query
    number `k` (counting from 0) throw. The file multer stores for the
    request, the bcrypt hash of a new password and the outcome of `unlink`
    are inputs too. */
module AdminPanel {
  import opened Wrappers
  import JsText
  import opened AdminRules

  /** A row of the `products` table, without its id. */
  datatype ProductRow = ProductRow(name: string, description: string, price: string,
                                   image: string, characteristics: string)

  /** The flash message a redirect carries. */
  datatype Flash = NoFlash | SuccessMsg(text: string) | ErrorMsg(text: string)

  /** What a handler answers: a redirect with a flash message, or a view
      rendered again with the validation errors. */
  datatype Reply = Redirect(location: string, flash: Flash) | Render(view: string, errors: seq<FieldError>)

  const LoginPage := "/admin/login"
  const Dashboard := "/admin"
  const ProductsPage := "/admin/products"
  const AddProductPage := "/admin/products/add"
  const SettingsPage := "/admin/settings"
  const ChangePasswordPage := "/admin/settings/change-password"

  const PleaseLogIn := "Пожалуйста, войдите в административную панель."
  const BadCredentials := "Неверное имя пользователя или пароль"
  const LoggedIn := "Вы успешно вошли в админ-панель"
  const ServerFailure := "Ошибка сервера"
  const ImageRequired := "Изображение обязательно"
  const ProductAdded := "Товар успешно добавлен!"
  const AddFailed := "Не удалось добавить товар."
  const ProductUpdated := "Товар успешно обновлён!"
  const UpdateFailed := "Не удалось обновить товар."
  const ProductNotFound := "Товар не найден."
  const ProductDeleted := "Товар успешно удалён!"
  const DeleteFailed := "Не удалось удалить товар."
  const SettingsSaved := "Настройки сайта успешно обновлены."
  const SettingsFailed := "Не удалось обновить настройки сайта."
  const AdminNotFound := "Администратор не найден"
  const WrongCurrentPassword := "Текущий пароль неверен"
  const PasswordChanged := "Пароль успешно изменён"
  const PasswordFailed := "Не удалось обновить пароль"

  /** The answer of `isAuthenticated` to a request without an admin session. */
  const LoginRequired := Redirect(LoginPage, ErrorMsg(PleaseLogIn))

  /** The page of the edit form for product `id`. */
  function EditPage(id: int): (path: string)
    ensures |path| > 21 && path[..21] == "/admin/products/edit/"
    ensures path[21..] == JsText.Show(id)
  {
    "/admin/products/edit/" + JsText.Show(id)
  }

  /** The edit page's path names the product: what follows
      `/admin/products/edit/` reads back as its id. */
  lemma EditPageNamesProduct(id: int)
    ensures |EditPage(id)| > 21 && EditPage(id)[..21] == "/admin/products/edit/"
    ensures JsText.ParseInt(EditPage(id)[21..]) == Some(id)
  {
    JsText.ParseShow(id);
    var digits := JsText.Show(id);
    assert ("/admin/products/edit/" + digits)[21..] == digits;
  }

  /** The files multer stores for a request: the uploaded one, if any. */
  function Stored(file: Option<string>): set<string>
  {
    if file.Some? then {file.value} else {}
  }

  /** The row an accepted edit form writes: the uploaded file when there is
      one, otherwise the form's `current_image`, and the normalised price. */
  function EditedRow(form: ProductForm, file: Option<string>): (row: ProductRow)
    ensures row.image == if file.Some? then file.value else form.currentImage
    ensures row.price == NormalizePrice(form.price) && row.name == form.name
    ensures row.description == form.description && row.characteristics == form.characteristics
  {
    ProductRow(form.name, form.description, NormalizePrice(form.price),
               if file.Some? then file.value else form.currentImage, form.characteristics)
  }

  /** The file an accepted edit unlinks: the form's `current_image`, when a
      new file was uploaded, `current_image` is non-empty and unlink works. */
  function Unlinked(form: ProductForm, file: Option<string>, unlinkFails: bool): (gone: set<string>)
    ensures gone <= {form.currentImage}
    ensures gone != {} <==> file.Some? && form.currentImage != "" && !unlinkFails
  {
    if file.Some? && form.currentImage != "" && !unlinkFails then {form.currentImage} else {}
  }

  class Panel {
    var products: map<int, ProductRow>
    /** The `AUTO_INCREMENT` counter of `products`. */
    var nextProductId: int
    /** The file names in `uploads/`. */
    var uploads: set<string>
    var settings: seq<SettingsRow>
    /** The `AUTO_INCREMENT` counter of `site_settings`. */
    var nextSettingsId: int
    var admins: seq<AdminRow>
    /** `req.session.user`. */
    var session: Option<SessionUser>
    /** `bcrypt.compare(password, hash)`. */
    const matches: (string, string) -> bool

    /** Every stored id is below its table's counter, so an insert never
        overwrites a row. */
    ghost predicate Valid()
      reads this
    {
      && (forall id :: id in products ==> id < nextProductId)
      && (forall r :: r in settings ==> r.id < nextSettingsId)
    }

    /** A server started on an existing admin table: no products, no
        uploads, no settings and nobody logged in. */
    constructor (initialAdmins: seq<AdminRow>, compare: (string, string) -> bool)
      ensures Valid()
      ensures products == map[] && uploads == {} && settings == [] && session == None
      ensures admins == initialAdmins && matches == compare
    {
      products := map[];
      nextProductId := 1;
      uploads := {};
      settings := [];
      nextSettingsId := 1;
      admins := initialAdmins;
      session := None;
      matches := compare;
    }

    /** POST /login. The session changes only on a known username whose
        hash matches the password; an unknown username and a wrong password
        get the same answer. */
    method Login(username: string, password: string, fault: Option<nat>) returns (reply: Reply)
      modifies this`session
      ensures var errs := LoginErrors(username, password);
              var who := Authenticate(admins, username, password, matches);
              && (errs != [] ==> reply == Render("admin/login", errs) && session == old(session))
              && (errs == [] && fault == Some(0) ==>
                    reply == Redirect(LoginPage, ErrorMsg(ServerFailure)) && session == old(session))
              && (errs == [] && fault != Some(0) && who.None? ==>
                    reply == Redirect(LoginPage, ErrorMsg(BadCredentials)) && session == old(session))
              && (errs == [] && fault != Some(0) && who.Some? ==>
                    reply == Redirect(Dashboard, SuccessMsg(LoggedIn)) && session == who)
      ensures session != old(session) ==> IsAuthenticated(session) && session.value.username == username
    {
      var errs := LoginErrors(username, password);
      if errs != [] {
        return Render("admin/login", errs);
      }
      if fault == Some(0) {
        return Redirect(LoginPage, ErrorMsg(ServerFailure));
      }
      var who := Authenticate(admins, username, password, matches);
      if who.None? {
        return Redirect(LoginPage, ErrorMsg(BadCredentials));
      }
      session := who;
      reply := Redirect(Dashboard, SuccessMsg(LoggedIn));
    }

    /** POST /products/add. Multer stores the upload before validation, so
        the file stays in `uploads/` whatever happens next; a row is
        inserted only for a valid form with a file and a working database. */
    method AddProduct(form: ProductForm, file: Option<string>, isNumeric: string -> bool,
                      fault: Option<nat>) returns (reply: Reply)
      requires Valid()
      modifies this`products, this`nextProductId, this`uploads
      ensures Valid()
      ensures !IsAuthenticated(session) ==>
                reply == LoginRequired && uploads == old(uploads)
                && products == old(products) && nextProductId == old(nextProductId)
      ensures IsAuthenticated(session) ==> uploads == old(uploads) + Stored(file)
      ensures var errs := ProductFormErrors(form, isNumeric);
              IsAuthenticated(session) && errs != [] ==>
                reply == Render("admin/add_product", errs)
                && products == old(products) && nextProductId == old(nextProductId)
      ensures IsAuthenticated(session) && ProductFormErrors(form, isNumeric) == [] && file.None? ==>
                reply == Redirect(AddProductPage, ErrorMsg(ImageRequired))
                && products == old(products) && nextProductId == old(nextProductId)
      ensures IsAuthenticated(session) && ProductFormErrors(form, isNumeric) == [] && file.Some?
              && fault == Some(0) ==>
                reply == Redirect(AddProductPage, ErrorMsg(AddFailed))
                && products == old(products) && nextProductId == old(nextProductId)
      ensures IsAuthenticated(session) && ProductFormErrors(form, isNumeric) == [] && file.Some?
              && fault != Some(0) ==>
                && reply == Redirect(ProductsPage, SuccessMsg(ProductAdded))
                && old(nextProductId) !in old(products)
                && products == old(products)[old(nextProductId) := ProductRow(form.name, form.description,
                                 NormalizePrice(form.price), file.value, form.characteristics)]
                && nextProductId == old(nextProductId) + 1
      ensures |products| <= |old(products)| + 1
    {
      if !IsAuthenticated(session) {
        return LoginRequired;
      }
      uploads := uploads + Stored(file);
      var errs := ProductFormErrors(form, isNumeric);
      if errs != [] {
        return Render("admin/add_product", errs);
      }
      var price := NormalizePrice(form.price);
      if file.None? {
        return Redirect(AddProductPage, ErrorMsg(ImageRequired));
      }
      if fault == Some(0) {
        return Redirect(AddProductPage, ErrorMsg(AddFailed));
      }
      products := products[nextProductId := ProductRow(form.name, form.description, price,
                                                       file.value, form.characteristics)];
      nextProductId := nextProductId + 1;
      reply := Redirect(ProductsPage, SuccessMsg(ProductAdded));
    }

    /** POST /products/edit/:id. With an upload the new file replaces the
        form's `current_image`, which is unlinked (when non-empty) BEFORE the
        UPDATE runs: a failed UPDATE leaves the row naming a removed file.
        An unlink failure does not stop the update, and an id with no row
        updates nothing but still reports success. */
    method EditProduct(id: int, form: ProductForm, file: Option<string>, isNumeric: string -> bool,
                       unlinkFails: bool, fault: Option<nat>) returns (reply: Reply)
      requires Valid()
      modifies this`products, this`uploads
      ensures Valid()
      ensures !IsAuthenticated(session) ==>
                reply == LoginRequired && uploads == old(uploads) && products == old(products)
      ensures IsAuthenticated(session) && ProductFormErrors(form, isNumeric) != [] ==>
                reply == Render("admin/edit_product", ProductFormErrors(form, isNumeric))
                && uploads == old(uploads) + Stored(file) && products == old(products)
      ensures IsAuthenticated(session) && ProductFormErrors(form, isNumeric) == [] ==>
                uploads == (old(uploads) + Stored(file)) - Unlinked(form, file, unlinkFails)
      ensures IsAuthenticated(session) && ProductFormErrors(form, isNumeric) == [] && fault == Some(0) ==>
                reply == Redirect(EditPage(id), ErrorMsg(UpdateFailed)) && products == old(products)
      ensures IsAuthenticated(session) && ProductFormErrors(form, isNumeric) == [] && fault != Some(0) ==>
                && reply == Redirect(ProductsPage, SuccessMsg(ProductUpdated))
                && products == if id in old(products) then old(products)[id := EditedRow(form, file)]
                               else old(products)
      ensures products.Keys == old(products.Keys)
      ensures IsAuthenticated(session) && ProductFormErrors(form, isNumeric) == [] && fault == Some(0)
              && Unlinked(form, file, unlinkFails) != {}
              && id in old(products) && old(products)[id].image == form.currentImage ==>
                products[id].image !in uploads
    {
      if !IsAuthenticated(session) {
        return LoginRequired;
      }
      uploads := uploads + Stored(file);
      var errs := ProductFormErrors(form, isNumeric);
      if errs != [] {
        return Render("admin/edit_product", errs);
      }
      reply := ApplyEdit(id, form, file, unlinkFails, fault);
    }

    /** The part of an edit after validation: unlink the replaced image,
        then run the UPDATE. */
    method ApplyEdit(id: int, form: ProductForm, file: Option<string>, unlinkFails: bool,
                     fault: Option<nat>) returns (reply: Reply)
      requires Valid()
      modifies this`products, this`uploads
      ensures Valid()
      ensures uploads == old(uploads) - Unlinked(form, file, unlinkFails)
      ensures fault == Some(0) ==>
                reply == Redirect(EditPage(id), ErrorMsg(UpdateFailed)) && products == old(products)
      ensures fault != Some(0) ==>
                && reply == Redirect(ProductsPage, SuccessMsg(ProductUpdated))
                && products == if id in old(products) then old(products)[id := EditedRow(form, file)]
                               else old(products)
      ensures products.Keys == old(products.Keys)
    {
      var row := EditedRow(form, file);
      if file.Some? && form.currentImage != "" && !unlinkFails {
        uploads := uploads - {form.currentImage};
      }
      if fault == Some(0) {
        return Redirect(EditPage(id), ErrorMsg(UpdateFailed));
      }
      if id in products {
        products := products[id := row];
      }
      reply := Redirect(ProductsPage, SuccessMsg(ProductUpdated));
    }

    /** POST /products/delete/:id. The row is deleted first and its file
        unlinked afterwards; an unlink failure still reports success. A
        missing id, or a failed query, changes nothing. */
    method DeleteProduct(id: int, unlinkFails: bool, fault: Option<nat>) returns (reply: Reply)
      requires Valid()
      modifies this`products, this`uploads
      ensures Valid()
      ensures !IsAuthenticated(session) ==>
                reply == LoginRequired && uploads == old(uploads) && products == old(products)
      ensures IsAuthenticated(session) && fault == Some(0) ==>
                reply == Redirect(ProductsPage, ErrorMsg(DeleteFailed))
                && uploads == old(uploads) && products == old(products)
      ensures IsAuthenticated(session) && fault != Some(0) && id !in old(products) ==>
                reply == Redirect(ProductsPage, ErrorMsg(ProductNotFound))
                && uploads == old(uploads) && products == old(products)
      ensures IsAuthenticated(session) && fault == Some(1) && id in old(products) ==>
                reply == Redirect(ProductsPage, ErrorMsg(DeleteFailed))
                && uploads == old(uploads) && products == old(products)
      ensures IsAuthenticated(session) && fault != Some(0) && fault != Some(1) && id in old(products) ==>
                && reply == Redirect(ProductsPage, SuccessMsg(ProductDeleted))
                && products == old(products) - {id}
                && uploads == if unlinkFails then old(uploads) else old(uploads) - {old(products)[id].image}
      ensures products.Keys <= old(products.Keys)
    {
      if !IsAuthenticated(session) {
        return LoginRequired;
      }
      if fault == Some(0) {
        return Redirect(ProductsPage, ErrorMsg(DeleteFailed));
      }
      if id !in products {
        return Redirect(ProductsPage, ErrorMsg(ProductNotFound));
      }
      var image := products[id].image;
      if fault == Some(1) {
        return Redirect(ProductsPage, ErrorMsg(DeleteFailed));
      }
      products := products - {id};
      if !unlinkFails {
        uploads := uploads - {image};
      }
      reply := Redirect(ProductsPage, SuccessMsg(ProductDeleted));
    }

    /** POST /settings/update: `UpsertSettings` after validation; the
        counter moves only when a row is inserted. */
    method UpdateSettings(title: string, description: string, fault: Option<nat>) returns (reply: Reply)
      requires Valid()
      modifies this`settings, this`nextSettingsId
      ensures Valid()
      ensures !IsAuthenticated(session) ==>
                reply == LoginRequired && settings == old(settings) && nextSettingsId == old(nextSettingsId)
      ensures IsAuthenticated(session) && SettingsErrors(title, description) != [] ==>
                reply == Render("admin/site_settings", SettingsErrors(title, description))
                && settings == old(settings) && nextSettingsId == old(nextSettingsId)
      ensures IsAuthenticated(session) && SettingsErrors(title, description) == []
              && (fault == Some(0) || fault == Some(1)) ==>
                reply == Redirect(SettingsPage, ErrorMsg(SettingsFailed))
                && settings == old(settings) && nextSettingsId == old(nextSettingsId)
      ensures IsAuthenticated(session) && SettingsErrors(title, description) == []
              && fault != Some(0) && fault != Some(1) ==>
                && reply == Redirect(SettingsPage, SuccessMsg(SettingsSaved))
                && settings == UpsertSettings(old(settings), title, description, old(nextSettingsId))
                && nextSettingsId == old(nextSettingsId) + (if old(settings) == [] then 1 else 0)
    {
      if !IsAuthenticated(session) {
        return LoginRequired;
      }
      var errs := SettingsErrors(title, description);
      if errs != [] {
        return Render("admin/site_settings", errs);
      }
      if fault == Some(0) || fault == Some(1) {
        return Redirect(SettingsPage, ErrorMsg(SettingsFailed));
      }
      var inserting := settings == [];
      settings := UpsertSettings(settings, title, description, nextSettingsId);
      if inserting {
        nextSettingsId := nextSettingsId + 1;
      }
      reply := Redirect(SettingsPage, SuccessMsg(SettingsSaved));
    }

    /** POST /settings/change-password for the logged-in admin. The stored
        hash changes only when the form is valid, the admin exists, the
        current password matches its hash and the UPDATE succeeds. */
    method ChangePassword(current: string, newPassword: string, confirm: string, newHash: string,
                          fault: Option<nat>) returns (reply: Reply)
      modifies this`admins
      ensures !IsAuthenticated(session) ==> reply == LoginRequired && admins == old(admins)
      ensures IsAuthenticated(session) && PasswordErrors(current, newPassword, confirm) != [] ==>
                reply == Render("admin/change_password", PasswordErrors(current, newPassword, confirm))
                && admins == old(admins)
      ensures IsAuthenticated(session) && PasswordErrors(current, newPassword, confirm) == [] ==>
              var k := FindAdmin(old(admins), ById(session.value.id));
                && (fault == Some(0) ==>
                      reply == Redirect(ChangePasswordPage, ErrorMsg(PasswordFailed)) && admins == old(admins))
                && (fault != Some(0) && k.None? ==>
                      reply == Redirect(ChangePasswordPage, ErrorMsg(AdminNotFound)) && admins == old(admins))
                && (fault != Some(0) && k.Some? && !matches(current, old(admins)[k.value].passwordHash) ==>
                      reply == Redirect(ChangePasswordPage, ErrorMsg(WrongCurrentPassword))
                      && admins == old(admins))
                && (fault == Some(1) && k.Some? && matches(current, old(admins)[k.value].passwordHash) ==>
                      reply == Redirect(ChangePasswordPage, ErrorMsg(PasswordFailed)) && admins == old(admins))
                && (fault != Some(0) && fault != Some(1) && k.Some?
                    && matches(current, old(admins)[k.value].passwordHash) ==>
                      reply == Redirect(Dashboard, SuccessMsg(PasswordChanged))
                      && admins == SetPasswordHash(old(admins), session.value.id, newHash))
      ensures admins != old(admins) ==> |newPassword| >= MinPasswordLength && confirm == newPassword
    {
      if !IsAuthenticated(session) {
        return LoginRequired;
      }
      var errs := PasswordErrors(current, newPassword, confirm);
      if errs != [] {
        return Render("admin/change_password", errs);
      }
      var adminId := session.value.id;
      if fault == Some(0) {
        return Redirect(ChangePasswordPage, ErrorMsg(PasswordFailed));
      }
      var k := FindAdmin(admins, ById(adminId));
      if k.None? {
        return Redirect(ChangePasswordPage, ErrorMsg(AdminNotFound));
      }
      if !matches(current, admins[k.value].passwordHash) {
        return Redirect(ChangePasswordPage, ErrorMsg(WrongCurrentPassword));
      }
      if fault == Some(1) {
        return Redirect(ChangePasswordPage, ErrorMsg(PasswordFailed));
      }
      admins := SetPasswordHash(admins, adminId, newHash);
      reply := Redirect(Dashboard, SuccessMsg(PasswordChanged));
    }
  }
}
