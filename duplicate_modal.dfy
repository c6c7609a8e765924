/** The duplicate dialog: the list of reported duplicates, each with the mode the
    user picked for it, and what Confirm sends to the resolution route. */
module DuplicateModal {
  import Ingest = UploadCvRoute
  import Resolve = ProcessRoute

  /** The three radio buttons. */
  datatype Mode = Merge | Replace | CreateNew {
    function Name(): string {
      match this
      case Merge => "merge"
      case Replace => "replace"
      case CreateNew => "create_new"
    }
  }

  /** A reported duplicate with its chosen mode. */
  datatype ModalItem = ModalItem(report: Ingest.DuplicateItem, mode: Mode)

  /** The request item Confirm sends for one row. */
  function ToRequest(item: ModalItem): (r: Resolve.DuplicateProcess)
    ensures r.existingCvId == item.report.existingCvId && r.newData == item.report.newData
    ensures Resolve.KnownMode(r.mode)
  {
    Resolve.DuplicateProcess(item.report.existingCvId, item.report.newData, item.mode.Name())
  }

  /** Every mode the dialog can send is one the resolution route accepts, and the
      three buttons send three different modes. */
  lemma ModesAreAccepted(m: Mode, n: Mode)
    ensures Resolve.KnownMode(m.Name())
    ensures m.Name() == n.Name() ==> m == n
  {
  }

  class Dialog {
    var items: seq<ModalItem>

    constructor ()
      ensures items == []
    {
      items := [];
    }

    /** The open effect: when the dialog opens, every reported duplicate is listed,
        in order, with mode `merge`. */
    method Open(open: bool, duplicates: seq<Ingest.DuplicateItem>)
      modifies this
      ensures open ==> |items| == |duplicates|
      ensures open ==> forall i | 0 <= i < |items| :: items[i] == ModalItem(duplicates[i], Merge)
      ensures !open ==> items == old(items)
    {
      if open {
        items := seq(|duplicates|, i requires 0 <= i < |duplicates| => ModalItem(duplicates[i], Merge));
      }
    }

    /** `handleModeChange`: the row `index` takes mode `mode`; every other row, and
        the row's report, stay as they were. */
    method ChangeMode(index: nat, mode: Mode)
      requires index < |items|
      modifies this
      ensures |items| == |old(items)|
      ensures items[index] == ModalItem(old(items)[index].report, mode)
      ensures forall j | 0 <= j < |items| && j != index :: items[j] == old(items)[j]
    {
      var newArr := items;
      newArr := newArr[index := newArr[index].(mode := mode)];
      items := newArr;
    }

    /** `handleApplyToAll`: every row takes mode `mode`, in the same order with the
        same reports. */
    method ApplyToAll(mode: Mode)
      modifies this
      ensures |items| == |old(items)|
      ensures forall i | 0 <= i < |items| :: items[i] == ModalItem(old(items)[i].report, mode)
    {
      items := seq(|items|, i requires 0 <= i < |items| reads this => ModalItem(items[i].report, mode));
    }

    /** Confirm is enabled only when there is a row. */
    predicate ConfirmEnabled()
      reads this
    {
      |items| > 0
    }

    /** What Confirm submits: the current rows, in order, each with its mode. */
    function Submission(): (r: seq<Resolve.DuplicateProcess>)
      reads this
      ensures |r| == |items|
      ensures forall i | 0 <= i < |r| :: r[i] == ToRequest(items[i])
    {
      seq(|items|, i requires 0 <= i < |items| reads this => ToRequest(items[i]))
    }
  }
}
