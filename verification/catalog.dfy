/**
 * The two records every part of the app exchanges: a Category (display name, icon, colours and
 * a display `order`) and a Question (text, owning category, premium flag), plus the built-in
 * fixtures of client/src/lib/categories.ts.
 */
module Catalog {
  import opened Wrappers

  datatype Category = Category(
    id: int,
    name: string,
    icon: string,
    colorPrimary: string,
    colorSecondary: string,
    order: int)

  datatype Question = Question(id: int, questionText: string, categoryId: int, isPremium: bool)

  /** A question row before the database assigns its id (`InsertQuestion`). */
  datatype NewQuestion = NewQuestion(questionText: string, categoryId: int, isPremium: bool)

  /** `categories.find(c => c.id === id)`: the first category with that id. */
  function FindCategory(cats: seq<Category>, id: int): (r: Option<Category>)
    ensures r.None? <==> forall c :: c in cats ==> c.id != id
    ensures r.Some? ==> r.value in cats && r.value.id == id
    ensures r.Some? ==> exists k :: 0 <= k < |cats| && cats[k] == r.value
                                    && forall j :: 0 <= j < k ==> cats[j].id != id
  {
    if |cats| == 0 then None
    else if cats[0].id == id then Some(cats[0])
    else
      var r := FindCategory(cats[1..], id);
      assert r.Some? ==> exists k :: 0 <= k < |cats| && cats[k] == r.value
                                     && forall j :: 0 <= j < k ==> cats[j].id != id by {
        if r.Some? {
          var k :| 0 <= k < |cats| - 1 && cats[1..][k] == r.value
                   && forall j :: 0 <= j < k ==> cats[1..][j].id != id;
          assert cats[k + 1] == r.value;
          assert forall j :: 0 <= j < k + 1 ==> cats[j].id != id by {
            forall j | 0 <= j < k + 1 ensures cats[j].id != id {
              if j > 0 {
                assert cats[j] == cats[1..][j - 1];
              }
            }
          }
        }
      }
      r
  }

  /** `categories.map(c => c.id)`. */
  function CategoryIds(cats: seq<Category>): (ids: seq<int>)
    ensures |ids| == |cats|
    ensures forall i :: 0 <= i < |cats| ==> ids[i] == cats[i].id
  {
    seq(|cats|, i requires 0 <= i < |cats| => cats[i].id)
  }

  function DefaultCategory(id: int, name: string, icon: string, primary: string, secondary: string): Category
  {
    Category(id, name, icon, primary, secondary, id)
  }

  /** `defaultCategories`: nine categories with ids 1..9, each ordered by its id. */
  function DefaultCategories(): (cs: seq<Category>)
    ensures |cs| == 9
    ensures forall i :: 0 <= i < |cs| ==> cs[i].id == i + 1 && cs[i].order == cs[i].id
  {
    [ DefaultCategory(1, "Character and Personality", "person", "#ff4d4f", "#ffcccc"),
      DefaultCategory(2, "Origin and Family", "home", "#ff8500", "#ffe0b3"),
      DefaultCategory(3, "Humor and Joy", "smile", "#ffdc54", "#fff4c2"),
      DefaultCategory(4, "Relationship and Communication", "chat", "#008475", "#b3e0db"),
      DefaultCategory(5, "Finances", "wallet", "#00c9b5", "#b3f0e9"),
      DefaultCategory(6, "Faith", "heart", "#9ed1d6", "#d9eff1"),
      DefaultCategory(7, "Sexuality", "heart", "#8253ee", "#d9ccf9"),
      DefaultCategory(8, "Future and Marriage", "ring", "#455fed", "#c9d4f9"),
      DefaultCategory(9, "Deep Topics", "brain", "#004a7e", "#b3d4e8") ]
  }

  /** The default categories have distinct ids and strictly ascending `order`. */
  lemma DefaultCategoriesDistinctAndOrdered()
    ensures forall i, j :: 0 <= i < j < |DefaultCategories()| ==>
              DefaultCategories()[i].id != DefaultCategories()[j].id
              && DefaultCategories()[i].order < DefaultCategories()[j].order
  {
  }

  /** `mockQuestions`: twelve free questions with ids 1..12, each in a default category. */
  function MockQuestions(): (qs: seq<Question>)
    ensures |qs| == 12
    ensures forall i :: 0 <= i < |qs| ==> qs[i].id == i + 1 && !qs[i].isPremium
    ensures forall i :: 0 <= i < |qs| ==> 1 <= qs[i].categoryId <= 9
  {
    [ Question(1, "How has your faith shaped who you are today?", 1, false),
      Question(2, "What role do you want faith to play in our future family?", 1, false),
      Question(3, "Describe your relationship with your parents growing up.", 2, false),
      Question(4, "What traditions from your childhood would you like to continue?", 2, false),
      Question(5, "What does a successful marriage look like to you?", 3, false),
      Question(6, "How do you handle disagreements in relationships?", 4, false),
      Question(7, "What are your views on saving vs. spending?", 5, false),
      Question(8, "How important is physical touch in expressing love?", 6, false),
      Question(9, "Where do you see yourself in 10 years?", 7, false),
      Question(10, "How do you typically react when you're upset?", 8, false),
      Question(11, "What hobbies would you love to share with a partner?", 9, false),
      Question(12, "How do you prefer to spend weekends?", 9, false) ]
  }

  /** Every mock question names a default category, so none of them is orphaned. */
  lemma MockQuestionsReferenceDefaultCategories()
    ensures forall q :: q in MockQuestions() ==> FindCategory(DefaultCategories(), q.categoryId).Some?
  {
    var cs := DefaultCategories();
    forall q | q in MockQuestions()
      ensures FindCategory(cs, q.categoryId).Some?
    {
      assert cs[q.categoryId - 1] in cs;
    }
  }
}
