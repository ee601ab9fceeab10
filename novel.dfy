/**
 * test/novel/novel.go: the book the novel example's test data turns the
 * pages of. `TurnPage` moves the left page by two pages per leaf and keeps
 * it inside the book.
 */
module Novel {

  /**
   * The left page after turning `count` leaves from `left` in a book of
   * `size` pages: a negative page becomes 0, one past the end becomes the
   * last page. The second test is only reached when the first fails, so in
   * a book of no pages at all a turn to page 0 or more lands on page -1.
   */
  function Turned(left: int, size: int, count: int): (page: int)
    ensures 0 <= left + 2 * count < size ==> page == left + 2 * count
    ensures left + 2 * count < 0 ==> page == 0
    ensures 0 <= left + 2 * count && size <= left + 2 * count ==> page == size - 1
    ensures size >= 1 ==> 0 <= page < size
  {
    var page := left + 2 * count;
    if page < 0 then 0
    else if page >= size then size - 1
    else page
  }

  /** `Book`: a title, the page open on the left and the number of pages. */
  class Book {
    var title: string
    var leftPage: int
    var size: int

    constructor (title: string, leftPage: int, size: int)
      ensures this.title == title && this.leftPage == leftPage && this.size == size
    {
      this.title := title;
      this.leftPage := leftPage;
      this.size := size;
    }

    /** `TurnPage`: move the left page by `count` leaves, clamped to the book. */
    method TurnPage(count: int)
      modifies this
      ensures leftPage == Turned(old(leftPage), old(size), count)
      ensures title == old(title) && size == old(size)
    {
      leftPage := leftPage + 2 * count;
      if leftPage < 0 {
        leftPage := 0;
      } else if leftPage >= size {
        leftPage := size - 1;
      }
    }

    /** `GetPage`: the page open on the left. */
    function GetPage(): (page: int)
      reads this
      ensures page == leftPage
    {
      leftPage
    }
  }

  /**
   * The novel example's first case: a 90-page book open at page 0, turned
   * by 4 leaves, is open at page 8 and keeps its title and size.
   */
  method TurnPageExample() returns (title: string, page: int, size: int)
    ensures title == "aleph" && page == 8 && size == 90
  {
    var book := new Book("aleph", 0, 90);
    book.TurnPage(4);
    title, page, size := book.title, book.GetPage(), book.size;
  }

  /** The novel example's second case: reading the page changes nothing. */
  method GetPageExample() returns (page: int, left: int)
    ensures page == 44 && left == 44
  {
    var book := new Book("aleph", 44, 90);
    page := book.GetPage();
    left := book.leftPage;
  }
}
