/**
 * `BookmarksActivityViewModel`: the add and edit dialogs in front of the
 * bookmarks adapter, which only pass on a non-empty text, and for an edit
 * only a changed one.
 */
module BookmarksViewModel {
  import opened Bookmarks

  /** How a dialog was closed: with its done button and the text typed, or cancelled. */
  datatype DialogChoice = Done(text: string) | Cancel

  class BookmarksActivityViewModel {
    const recyclerAdapter: BookmarksRecyclerAdapter

    constructor (saved: set<string>)
      ensures fresh(recyclerAdapter) && recyclerAdapter.Valid()
      ensures recyclerAdapter.list == [] && recyclerAdapter.saved == saved
      ensures recyclerAdapter.notifications == 0
    {
      recyclerAdapter := new BookmarksRecyclerAdapter(saved);
    }

    /** `prepareRecycler`: the adapter is loaded from the preferences and the view refreshed. */
    method PrepareRecycler()
      requires recyclerAdapter.Valid()
      modifies recyclerAdapter
      ensures recyclerAdapter.Valid()
      ensures Elements(recyclerAdapter.list) == recyclerAdapter.saved == old(recyclerAdapter.saved)
      ensures recyclerAdapter.notifications == old(recyclerAdapter.notifications) + 1
    {
      recyclerAdapter.UpdateList(true);
    }

    /**
     * The add dialog closing. Done with a non-empty text calls the adapter's
     * `add` once; done with an empty text, or cancel, changes nothing.
     */
    method ConfirmAdd(choice: DialogChoice)
      requires recyclerAdapter.Valid()
      modifies recyclerAdapter
      ensures recyclerAdapter.Valid()
      ensures choice.Cancel? || choice.text == [] ==> unchanged(recyclerAdapter)
      ensures choice.Done? && choice.text != [] ==>
        && Elements(recyclerAdapter.list) == old(Elements(recyclerAdapter.list)) + {choice.text}
        && recyclerAdapter.saved == Elements(recyclerAdapter.list)
        && recyclerAdapter.notifications == old(recyclerAdapter.notifications) + 1
    {
      if choice.Done? && choice.text != [] {
        recyclerAdapter.Add(choice.text);
      }
    }

    /**
     * The edit dialog for `text` closing. Done with a non-empty text that
     * differs from `text` calls the adapter's `edit` once; any other close
     * changes nothing.
     */
    method ConfirmEdit(text: string, choice: DialogChoice)
      requires recyclerAdapter.Valid()
      modifies recyclerAdapter
      ensures recyclerAdapter.Valid()
      ensures choice.Cancel? || choice.text == [] || choice.text == text ==> unchanged(recyclerAdapter)
      ensures choice.Done? && choice.text != [] && choice.text != text ==>
        && Elements(recyclerAdapter.list) == (old(Elements(recyclerAdapter.list)) - {text}) + {choice.text}
        && recyclerAdapter.saved == Elements(recyclerAdapter.list)
        && recyclerAdapter.notifications == old(recyclerAdapter.notifications) + 1
    {
      if choice.Done? && choice.text != [] && choice.text != text {
        recyclerAdapter.Edit(text, choice.text);
      }
    }
  }
}
