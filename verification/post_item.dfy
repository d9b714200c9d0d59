/** The submit handler of `app/post-item/page.tsx`. */
module PostItem {
  import opened Wrappers
  import opened Auth
  import opened Listings

  /** The form fields; `imagePreview` is the data URL read from the chosen file, if any. */
  datatype ItemForm = ItemForm(
    title: string,
    description: string,
    phoneNumber: string,
    address: string,
    imagePreview: Option<string>)

  const EmptyForm := ItemForm("", "", "", "", None)

  datatype SubmitOutcome =
    | Posted(item: RentalItem)
    | AuthenticationRequired
    | MissingInformation

  /** What a submission reports, the stored collection after it, and the form shown after it. */
  datatype Submission = Submission(outcome: SubmitOutcome, stored: Option<seq<RentalItem>>, form: ItemForm)

  /** JavaScript truthiness of a string or nullable string. */
  predicate Filled(s: string) { s != "" }

  predicate HasImage(img: Option<string>) { img.Some? && Filled(img.value) }

  /** Every required field is filled in; the description is optional. */
  predicate Complete(f: ItemForm)
  {
    Filled(f.title) && Filled(f.phoneNumber) && Filled(f.address) && HasImage(f.imagePreview)
  }

  /**
   * `handleSubmit`. `freshId` stands for `uuidv4()` and `now` for
   * `new Date().toISOString()`.
   */
  function Submit(user: Option<User>, form: ItemForm, stored: Option<seq<RentalItem>>,
                  freshId: string, now: string): (r: Submission)
    ensures user.None? ==> r == Submission(AuthenticationRequired, stored, form)
    ensures user.Some? && !Complete(form) ==> r == Submission(MissingInformation, stored, form)
    ensures r.outcome.Posted? <==> user.Some? && Complete(form)
    ensures r.outcome.Posted? ==>
      var it := r.outcome.item;
      && it.id == freshId && it.createdAt == now
      && it.userId == user.value.id
      && it.title == form.title && it.description == form.description
      && it.phoneNumber == form.phoneNumber && it.address == form.address
      && it.imageUrl == form.imagePreview.value
    ensures r.outcome.Posted? ==> r.form == EmptyForm && r.stored.Some?
    ensures r.outcome.Posted? && stored.None? ==> r.stored.value == [r.outcome.item]
    ensures r.outcome.Posted? && stored.Some? ==>
      && |r.stored.value| == |stored.value| + 1
      && r.stored.value[..|stored.value|] == stored.value
      && r.stored.value[|stored.value|] == r.outcome.item
  {
    match user
    case None => Submission(AuthenticationRequired, stored, form)
    case Some(u) =>
      if !Filled(form.title) || !Filled(form.phoneNumber) || !Filled(form.address)
        || !HasImage(form.imagePreview)
      then Submission(MissingInformation, stored, form)
      else
        var newItem := RentalItem(freshId, form.title, form.description, form.imagePreview.value,
                                  form.phoneNumber, form.address, u.id, now);
        Submission(Posted(newItem), Some(Items(stored) + [newItem]), EmptyForm)
  }

  /** A fresh id keeps item ids distinct, and the new item is the only one carrying it. */
  lemma SubmitPreservesIdsDistinct(user: Option<User>, form: ItemForm, stored: Option<seq<RentalItem>>,
                                   freshId: string, now: string)
    requires ItemIdsDistinct(Items(stored))
    requires forall i :: 0 <= i < |Items(stored)| ==> Items(stored)[i].id != freshId
    ensures ItemIdsDistinct(Items(Submit(user, form, stored, freshId, now).stored))
    ensures Submit(user, form, stored, freshId, now).outcome.Posted? ==>
      var items := Items(Submit(user, form, stored, freshId, now).stored);
      forall i :: 0 <= i < |items| && items[i].id == freshId ==>
        items[i] == Submit(user, form, stored, freshId, now).outcome.item
  {
  }

  /** A posted item appears in its poster's owner view, after everything they listed before. */
  lemma SubmitExtendsOwnerView(u: User, form: ItemForm, stored: Option<seq<RentalItem>>,
                               freshId: string, now: string)
    requires Complete(form)
    ensures var r := Submit(Some(u), form, stored, freshId, now);
      OwnerView(Items(r.stored), u.id) == OwnerView(Items(stored), u.id) + [r.outcome.item]
  {
    var r := Submit(Some(u), form, stored, freshId, now);
    OwnerViewAppend(Items(stored), r.outcome.item, u.id);
  }

}
