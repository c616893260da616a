/** The single confirmation dialog that stands in front of destructive actions. */
module ConfirmDialog {
  import opened Wrappers

  /**
   * What `confirm` is given. `onConfirm` is the action to run on confirmation,
   * kept as a value of the caller's choosing.
   */
  datatype ConfirmOptions<A> = ConfirmOptions(
    title: string,
    body: string,
    confirmLabel: Option<string>,
    cancelLabel: Option<string>,
    onConfirm: A)

  /** The provider's one `dialog` slot. */
  class ConfirmDialogProvider<A> {
    var dialog: Option<ConfirmOptions<A>>

    constructor ()
      ensures dialog == None
    {
      dialog := None;
    }

    /** `confirm`: shows these options, replacing any dialog still pending. */
    method Confirm(options: ConfirmOptions<A>)
      modifies this
      ensures dialog == Some(options)
    {
      dialog := Some(options);
    }

    /** `closeDialog` (Cancel, or a click on the overlay): the slot empties and nothing runs. */
    method CloseDialog()
      modifies this
      ensures dialog == None
    {
      dialog := None;
    }

    /**
     * `handleConfirm`: hands back the pending action, which the caller runs once,
     * and empties the slot; with nothing pending there is nothing to run.
     */
    method HandleConfirm() returns (invoked: Option<A>)
      modifies this
      ensures old(dialog).Some? ==> invoked == Some(old(dialog).value.onConfirm)
      ensures old(dialog).None? ==> invoked == None
      ensures dialog == None
    {
      if dialog.Some? {
        invoked := Some(dialog.value.onConfirm);
      } else {
        invoked := None;
      }
      CloseDialog();
    }
  }
}
