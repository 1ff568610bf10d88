/**
 * The admin panel: the password gate, the tab sidebar, the content editor
 * with its save status, the product form's add/edit modes, and the inbox.
 * API calls are not made here: their outcomes are method parameters and the
 * requests they would send are returned.
 */
module Admin {
  import opened Wrappers
  import opened Js
  import Seqs

  // ------------------------------------------------------------------ login

  const AdminPassword := "admin"
  const InvalidPassword := "Invalid password"

  /** The login form's state: the typed password and the error line. */
  class LoginForm {
    var password: string
    var error: string

    constructor ()
      ensures password == "" && error == ""
    {
      password, error := "", "";
    }

    method Type(value: string)
      modifies this
      ensures password == value && error == old(error)
    {
      password := value;
    }

    /** Submitting: accepted exactly for the hardcoded password, else the error is shown. */
    method Submit() returns (accepted: bool)
      modifies this
      ensures accepted <==> password == AdminPassword
      ensures password == old(password)
      ensures error == if accepted then old(error) else InvalidPassword
    {
      accepted := password == AdminPassword;
      if !accepted {
        error := InvalidPassword;
      }
    }
  }

  datatype Tab = Dashboard | ContentTab | ProductsTab | InboxTab

  /** What the panel renders: the login form, or the sidebar layout with one tab open. */
  datatype Screen = LoginScreen | Panel(tab: Tab)

  class AdminPanel {
    var isAuthenticated: bool
    var activeTab: Tab

    constructor ()
      ensures !isAuthenticated && activeTab == Dashboard
    {
      isAuthenticated, activeTab := false, Dashboard;
    }

    /** An unauthenticated panel shows only the login form. */
    function CurrentScreen(): (s: Screen)
      reads this
      ensures s == LoginScreen <==> !isAuthenticated
      ensures isAuthenticated ==> s.tab == activeTab
    {
      if isAuthenticated then Panel(activeTab) else LoginScreen
    }

    /** Submitting the login form, which is only shown while unauthenticated. */
    method Login(form: LoginForm) returns (accepted: bool)
      requires !isAuthenticated
      modifies this, form
      ensures accepted <==> old(form.password) == AdminPassword
      ensures isAuthenticated == accepted && activeTab == old(activeTab)
      ensures form.password == old(form.password)
      ensures form.error == if accepted then old(form.error) else InvalidPassword
    {
      accepted := form.Submit();
      if accepted {
        isAuthenticated := true;
      }
    }

    method SelectTab(tab: Tab)
      requires isAuthenticated
      modifies this
      ensures isAuthenticated && activeTab == tab
    {
      activeTab := tab;
    }

    /** Logging out; the open tab is kept for the next login. */
    method Logout()
      requires isAuthenticated
      modifies this
      ensures !isAuthenticated && activeTab == old(activeTab)
      ensures CurrentScreen() == LoginScreen
    {
      isAuthenticated := false;
    }
  }

  // --------------------------------------------------------- content editor

  /**
   * `handleChange(section, field, value)`: `{...prev, [section]: {...prev[section], [field]: value}}`.
   * Only `content[section][field]` changes; a section that was absent or not an
   * object becomes an object holding that one field.
   */
  function SetSectionField(content: Record, section: string, field: string, value: Value): (r: Record)
    ensures r.Keys == content.Keys + {section}
    ensures forall k :: k in content && k != section ==> r[k] == content[k]
    ensures r[section].Obj? && field in r[section].fields && r[section].fields[field] == value
    ensures r[section].fields.Keys == FieldsOf(Get(content, section)).Keys + {field}
    ensures forall f :: f in FieldsOf(Get(content, section)) && f != field ==>
      r[section].fields[f] == FieldsOf(Get(content, section))[f]
  {
    Spread(content, map[section := Obj(Spread(FieldsOf(Get(content, section)), map[field := value]))])
  }

  /**
   * Saving after an edit sends every section, so the server's shallow merge of
   * the sent content over the content the editor loaded stores exactly the
   * edited content.
   */
  lemma SaveAfterEditStoresEdit(loaded: Record, section: string, field: string, value: Value)
    ensures Spread(loaded, SetSectionField(loaded, section, field, value))
      == SetSectionField(loaded, section, field, value)
  {
  }

  /** The save status: `''`, `'saving'`, `'saved'` or `'error'`. */
  datatype SaveStatus = Blank | Saving | Saved | Error

  /** The save button is disabled exactly while saving, and only then reads "Saving...". */
  function SaveButtonLabel(status: SaveStatus): (caption: string)
    ensures caption == "Saving..." <==> status == Saving
    ensures caption == "Saved!" <==> status == Saved
    ensures status == Blank || status == Error ==> caption == "Save Changes"
  {
    match status
    case Saving => "Saving..."
    case Saved => "Saved!"
    case _ => "Save Changes"
  }

  /** `disabled={status === 'saving'}`: the button is disabled exactly while it reads "Saving...". */
  predicate SaveDisabled(status: SaveStatus)
    ensures SaveDisabled(status) <==> SaveButtonLabel(status) == "Saving..."
  {
    status == Saving
  }

  class ContentManager {
    var content: Option<Record>
    var status: SaveStatus

    constructor ()
      ensures content == None && status == Blank
    {
      content, status := None, Blank;
    }

    /** The GET /api/content response arrived. */
    method Loaded(data: Record)
      modifies this
      ensures content == Some(data) && status == old(status)
    {
      content := Some(data);
    }

    /** An input changed; inputs are only rendered once the content has loaded. */
    method HandleChange(section: string, field: string, value: Value)
      requires content.Some?
      modifies this
      ensures content == Some(SetSectionField(old(content).value, section, field, value))
      ensures status == old(status)
    {
      content := Some(SetSectionField(content.value, section, field, value));
    }

    /** The save button was pressed: status becomes saving and the whole content is posted. */
    method BeginSave() returns (posted: Record)
      requires content.Some? && !SaveDisabled(status)
      modifies this
      ensures content == old(content) && posted == old(content).value
      ensures status == Saving && SaveDisabled(status)
    {
      status := Saving;
      posted := content.value;
    }

    /** The POST /api/content request settled. */
    method FinishSave(success: bool)
      requires status == Saving
      modifies this
      ensures status == (if success then Saved else Error) && !SaveDisabled(status)
      ensures content == old(content)
    {
      status := if success then Saved else Error;
    }
  }

  // ----------------------------------------------------------- product form

  /** The empty form: blank fields and category `'Signature'`. */
  const EmptyItem: Record := map[
    "name" := Str(""), "description" := Str(""), "specs" := Str(""),
    "imageUrl" := Str(""), "category" := Str("Signature")]

  /** The request a form submit sends. */
  datatype ProductRequest = PutProduct(id: Value, body: Record) | PostProduct(body: Record)

  /** `editingId ? PUT /products/${editingId} : POST /products`, both with the form as body. */
  function RequestFor(editingId: Value, item: Record): (req: ProductRequest)
    ensures req.PutProduct? <==> Truthy(editingId)
    ensures req.PutProduct? ==> req.id == editingId
    ensures req.body == item
  {
    if Truthy(editingId) then PutProduct(editingId, item) else PostProduct(item)
  }

  /**
   * Editing a product whose id is falsy (a body can store `id: ""`) leaves the
   * form in add mode: submitting it creates a copy instead of updating.
   */
  lemma EditOfFalsyIdPosts(p: Record)
    requires !Truthy(Get(p, "id"))
    ensures RequestFor(Get(p, "id"), p) == PostProduct(p)
  {
  }

  class ProductsManager {
    var products: seq<Record>
    var newItem: Record
    var editingId: Value

    constructor ()
      ensures products == [] && newItem == EmptyItem && editingId == Null
    {
      products, newItem, editingId := [], EmptyItem, Null;
    }

    /** The GET /api/products response arrived. */
    method Loaded(list: seq<Record>)
      modifies this
      ensures products == list && newItem == old(newItem) && editingId == old(editingId)
    {
      products := list;
    }

    /** An input of the form changed (or an upload filled `imageUrl`). */
    method SetField(field: string, value: Value)
      modifies this
      ensures newItem == old(newItem)[field := value]
      ensures products == old(products) && editingId == old(editingId)
    {
      newItem := newItem[field := value];
    }

    /** `handleEdit(p)`: the form becomes `p` and edit mode targets `p.id`. */
    method Edit(p: Record)
      modifies this
      ensures newItem == p && editingId == Get(p, "id")
      ensures products == old(products)
    {
      newItem := p;
      editingId := Get(p, "id");
    }

    /** `handleCancel`: back to the empty form in add mode. */
    method Cancel()
      modifies this
      ensures newItem == EmptyItem && editingId == Null
      ensures products == old(products)
    {
      newItem := EmptyItem;
      editingId := Null;
    }

    /**
     * `handleSubmit`, given whether the request succeeds: after success the
     * form is reset and an update clears `editingId`; after a failure nothing changes.
     */
    method Submit(success: bool) returns (req: ProductRequest)
      modifies this
      ensures req == RequestFor(old(editingId), old(newItem))
      ensures success ==> newItem == EmptyItem
      ensures success ==> editingId == if req.PutProduct? then Null else old(editingId)
      ensures !success ==> newItem == old(newItem) && editingId == old(editingId)
      ensures products == old(products)
    {
      req := RequestFor(editingId, newItem);
      if success {
        if req.PutProduct? {
          editingId := Null;
        }
        newItem := EmptyItem;
      }
    }

    /** The form's heading: edit mode exactly when `editingId` is truthy. */
    function Heading(): (h: string)
      reads this
      ensures h == "Edit Product" <==> Truthy(editingId)
      ensures h == "Add New Product" <==> !Truthy(editingId)
    {
      if Truthy(editingId) then "Edit Product" else "Add New Product"
    }
  }

  // ------------------------------------------------------------------ inbox

  /** The inbox shows the fetched messages in reverse order; its heading counts them all. */
  function InboxMessages(fetched: seq<Value>): (shown: seq<Value>)
    ensures |shown| == |fetched|
    ensures forall k :: 0 <= k < |shown| ==> shown[k] == fetched[|fetched| - 1 - k]
    ensures Seqs.Reverse(shown) == fetched
  {
    Seqs.ReverseInvolution(fetched);
    Seqs.Reverse(fetched)
  }
}
